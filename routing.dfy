/**
 * How the game page turns what the human player does into reducer
 * actions (src/app/game/page.tsx:712-786, with the turn gates of
 * src/components/sky-combat/Battlefield.tsx and GameControls.tsx): a click
 * on a cell, the action buttons, End Turn, the undo handler, the one-second
 * timer and the check that ends the game or starts the next wave. Every
 * action these produce can be applied, and keeps a consistent state
 * consistent.
 */
module Routing {
  import opened Common
  import opened Records
  import opened Constants
  import opened Board
  import opened Model
  import opened Reducer
  import opened ReducerFacts
  import opened CombatFacts
  import opened TurnFacts

  // ---------------------------------------------------------------- what the interface dispatches

  /**
   * A click on cell `p` (`handleCellClick`, page.tsx:712-733), reached only
   * on the human player's turn (Battlefield.tsx:93, 103). The grid holds
   * the id of the unit on a cell; `draws` are the attack's random draws.
   */
  function CellClick(s: GameState, p: Pos, tutorial: bool, draws: Draws): (a: Option<Action>)
    requires WellFormed(s) && GridMatches(s) && SelectionLive(s) && InBounds(p)
  {
    if s.currentPlayer != Human || s.phase == GameOver || tutorial then None
    else
      var cell := At(s.grid, p);
      if cell.Some? && s.units.entries[cell.value].owner == s.currentPlayer then Some(SelectAircraft(cell.value))
      else if s.selected.Some? && s.selectedAction == MoveAction && cell.None? then
        if p in s.highlights then Some(MoveAircraft(p)) else None
      else if s.selected.Some? && s.selectedAction == AttackAction && cell.Some? then
        if cell.value in s.attackable then Some(AttackAircraft(cell.value, draws)) else None
      else if s.selected.Some? && s.selectedAction == SpecialAction && cell.None? then
        if s.units.entries[s.selected.value].kind == Support && p in s.highlights then Some(SpecialAircraft(None, Some(p)))
        else None
      else None
  }

  /** `handleActionSelect` (page.tsx:735-742): choosing the action already chosen cancels it. */
  function ActionSelect(s: GameState, kind: ActionKind, tutorial: bool): (a: Option<Action>)
  {
    if tutorial then None
    else if s.selectedAction == kind then Some(SelectAction(NoAction))
    else Some(SelectAction(kind))
  }

  /** End Turn (`handleEndTurn`, page.tsx:744-747), enabled on the human player's turn (GameControls.tsx:99). */
  function EndTurnPress(s: GameState, tutorial: bool): (a: Option<Action>)
  {
    if tutorial || s.currentPlayer != Human then None else Some(EndTurn)
  }

  /** `handleUndoMove` (page.tsx:749-752). */
  function UndoPress(tutorial: bool): (a: Option<Action>)
  {
    if tutorial then None else Some(UndoMove)
  }

  /** The interval that ticks every second while the game runs and the tutorial is closed (page.tsx:684-700). */
  function TimerTick(s: GameState, tutorial: bool): (a: Option<Action>)
  {
    if s.phase == Playing && !tutorial then Some(TickTimer) else None
  }

  /**
   * The game-over check (page.tsx:760-786): with the game running, no
   * live unit of the human player means defeat; otherwise no live enemy
   * means victory, or in survival mode the next wave.
   */
  function GameOverCheck(s: GameState): (a: Option<Action>)
    requires Valid(s.units)
  {
    if s.phase != Playing then None
    else if |UnitsOf(s.units, Human)| == 0 then Some(SetGameOver(Some(Opponent)))
    else if |UnitsOf(s.units, Opponent)| == 0 then
      if s.mode == Survival then Some(StartNewWave) else Some(SetGameOver(Some(Human)))
    else None
  }

  // ---------------------------------------------------------------- what a click means

  /** No live unit of `who` in `units`. */
  ghost predicate NoneOf(units: Record<Id, Unit>, who: Player) {
    forall k | k in units.entries :: units.entries[k].owner != who
  }

  lemma {:induction false} EmptyUnitsOf(units: Record<Id, Unit>, who: Player)
    requires Valid(units)
    ensures |UnitsOf(units, who)| == 0 <==> NoneOf(units, who)
  {
    var us := UnitsOf(units, who);
    if |us| != 0 {
      assert us[0] in us;
    }
    if !NoneOf(units, who) {
      var k :| k in units.entries && units.entries[k].owner == who;
      assert units.entries[k] in units.entries.Values;
      assert units.entries[k] in us;
    }
  }

  /**
   * What a click can do: select one of the human player's own units, move
   * the selected unit onto the empty highlighted cell clicked, attack an
   * enemy unit on the attackable list, or revive onto the empty
   * highlighted cell clicked with a support selected. It does nothing off
   * the human player's turn, after the game ended or under the tutorial.
   */
  lemma CellClickMeans(s: GameState, p: Pos, tutorial: bool, draws: Draws)
    requires Consistent(s) && InBounds(p)
    ensures WellFormed(s) && GridMatches(s)
    ensures var a := CellClick(s, p, tutorial, draws);
            && (s.currentPlayer != Human || s.phase == GameOver || tutorial ==> a.None?)
            && (a.Some? && a.value.SelectAircraft? ==>
                  a.value.aircraftId in s.units.entries && s.units.entries[a.value.aircraftId].owner == Human &&
                  s.units.entries[a.value.aircraftId].position == p)
            && (a.Some? && a.value.MoveAircraft? ==>
                  a.value.to == p && Open(s.grid, p) && p in s.highlights && s.selectedAction == MoveAction)
            && (a.Some? && a.value.AttackAircraft? ==>
                  var t := a.value.targetId;
                  t in s.units.entries && s.units.entries[t].owner == Opponent && s.units.entries[t].position == p &&
                  t in s.attackable && s.selectedAction == AttackAction && a.value.draws == draws)
            && (a.Some? && a.value.SpecialAircraft? ==>
                  a.value == SpecialAircraft(None, Some(p)) && Open(s.grid, p) && p in s.highlights &&
                  s.selected.Some? && s.units.entries[s.selected.value].kind == Support)
            && (a.Some? ==> a.value.SelectAircraft? || a.value.MoveAircraft? || a.value.AttackAircraft? || a.value.SpecialAircraft?)
  {
    var cell := At(s.grid, p);
    if cell.Some? {
      assert s.units.entries[cell.value].position == p;
    }
  }

  /** Every click on the human player's own unit selects it. */
  lemma ClickOwnUnitSelects(s: GameState, p: Pos, draws: Draws)
    requires Consistent(s) && InBounds(p)
    requires s.currentPlayer == Human && s.phase == Playing
    requires At(s.grid, p).Some? && s.units.entries[At(s.grid, p).value].owner == Human
    ensures CellClick(s, p, false, draws) == Some(SelectAircraft(At(s.grid, p).value))
    ensures SelectAircraftCase(s, At(s.grid, p).value).selected == At(s.grid, p)
  {
  }

  // ---------------------------------------------------------------- what the interface dispatches can be applied

  /** A click produces an action the reducer can apply, and applying it keeps the state consistent. */
  lemma CellClickKeepsConsistent(s: GameState, p: Pos, tutorial: bool, draws: Draws, env: Env)
    requires Consistent(s) && InBounds(p)
    requires CellClick(s, p, tutorial, draws).Some?
    ensures Defined(s, CellClick(s, p, tutorial, draws).value)
    ensures Consistent(Reduce(s, CellClick(s, p, tutorial, draws).value, env))
  {
    var a := CellClick(s, p, tutorial, draws).value;
    CellClickMeans(s, p, tutorial, draws);
    match a
    case SelectAircraft(id) => SelectAircraftKeepsConsistent(s, id);
    case MoveAircraft(to) => MoveKeepsConsistent(s, to);
    case AttackAircraft(t, d) => AttackKeepsConsistent(s, t, d);
    case SpecialAircraft(reviveId, position) => SpecialKeepsConsistent(s, reviveId, position);
  }

  /** An action button produces an action the reducer can apply, and applying it keeps the state consistent. */
  lemma ActionSelectKeepsConsistent(s: GameState, kind: ActionKind, tutorial: bool, env: Env)
    requires Consistent(s) && ActionSelect(s, kind, tutorial).Some?
    ensures Defined(s, ActionSelect(s, kind, tutorial).value)
    ensures Consistent(Reduce(s, ActionSelect(s, kind, tutorial).value, env))
  {
    var chosen := if s.selectedAction == kind then NoAction else kind;
    assert ActionSelect(s, kind, tutorial).value == SelectAction(chosen);
    assert Reduce(s, SelectAction(chosen), env) == SelectActionCase(s, chosen);
    SelectActionKeepsConsistent(s, chosen);
  }

  /** End Turn produces an action the reducer can apply, and applying it keeps the state consistent. */
  lemma EndTurnPressKeepsConsistent(s: GameState, tutorial: bool, env: Env)
    requires Consistent(s) && EndTurnPress(s, tutorial).Some?
    ensures Defined(s, EndTurnPress(s, tutorial).value)
    ensures Consistent(Reduce(s, EndTurnPress(s, tutorial).value, env))
  {
    assert Reduce(s, EndTurn, env) == EndTurnCase(s, env);
    EndTurnKeepsConsistent(s, env);
  }

  /** Undo produces an action the reducer can apply, and applying it keeps the state consistent. */
  lemma UndoPressKeepsConsistent(s: GameState, tutorial: bool, env: Env)
    requires Consistent(s) && UndoPress(tutorial).Some?
    ensures Defined(s, UndoPress(tutorial).value)
    ensures Consistent(Reduce(s, UndoPress(tutorial).value, env))
  {
    UndoKeepsConsistent(s);
    assert Reduce(s, UndoMove, env) == UndoCase(s);
  }

  /** The timer produces an action the reducer can apply, and applying it keeps the state consistent. */
  lemma TimerTickKeepsConsistent(s: GameState, tutorial: bool, env: Env)
    requires Consistent(s) && TimerTick(s, tutorial).Some?
    ensures Defined(s, TimerTick(s, tutorial).value)
    ensures Consistent(Reduce(s, TimerTick(s, tutorial).value, env))
  {
    assert Reduce(s, TickTimer, env) == TickTimerCase(s, env);
    TickKeepsConsistent(s, env);
  }

  /**
   * Pressing the button of the action already chosen cancels it: after
   * choosing an action the selected unit can take, pressing the same
   * button again leaves no action chosen and nothing highlighted.
   */
  lemma PressTwiceCancels(s: GameState, kind: ActionKind, env: Env)
    requires WellFormed(s) && SelectionLive(s) && s.selected.Some? && s.selectedAction != kind
    requires kind == MoveAction || kind == AttackAction
    requires s.units.entries[s.selected.value].stats.actionPoints > 0
    ensures var r := Reduce(s, SelectAction(kind), env);
            && ActionSelect(s, kind, false) == Some(SelectAction(kind))
            && r.selectedAction == kind
            && ActionSelect(r, kind, false) == Some(SelectAction(NoAction))
            && WellFormed(r) && SelectionLive(r)
            && var c := Reduce(r, SelectAction(NoAction), env);
               c.selectedAction == NoAction && c.highlights == {} && c.attackable == [] && c.selected == s.selected
  {
    var r := SelectActionCase(s, kind);
    assert Reduce(s, SelectAction(kind), env) == r;
    assert r.grid == s.grid && r.units == s.units && r.destroyed == s.destroyed && r.selected == s.selected;
    assert Reduce(r, SelectAction(NoAction), env) == SelectActionCase(r, NoAction);
  }

  // ---------------------------------------------------------------- the end of the game

  /**
   * The check declares defeat exactly when the human player has no live
   * unit left, victory exactly when the opponent has none left outside
   * survival mode, and a new wave when that happens in survival mode; it
   * does nothing once the game is over.
   */
  lemma GameOverCheckDecides(s: GameState)
    requires Valid(s.units)
    ensures var a := GameOverCheck(s);
            && (s.phase != Playing ==> a.None?)
            && (s.phase == Playing ==>
                  && (a == Some(SetGameOver(Some(Opponent))) <==> NoneOf(s.units, Human))
                  && (a == Some(SetGameOver(Some(Human))) <==>
                        !NoneOf(s.units, Human) && NoneOf(s.units, Opponent) && s.mode != Survival)
                  && (a == Some(StartNewWave) <==>
                        !NoneOf(s.units, Human) && NoneOf(s.units, Opponent) && s.mode == Survival)
                  && (a.None? <==> !NoneOf(s.units, Human) && !NoneOf(s.units, Opponent)))
  {
    EmptyUnitsOf(s.units, Human);
    EmptyUnitsOf(s.units, Opponent);
  }

  /** The game-over check produces an action the reducer can apply; a declared result keeps the state consistent. */
  lemma GameOverCheckKeepsConsistent(s: GameState, env: Env)
    requires Consistent(s) && GameOverCheck(s).Some?
    ensures Defined(s, GameOverCheck(s).value)
    ensures GameOverCheck(s).value.SetGameOver? ==> Consistent(Reduce(s, GameOverCheck(s).value, env))
  {
    CheckedActionApplies(s, GameOverCheck(s).value, env);
  }

  lemma CheckedActionApplies(s: GameState, a: Action, env: Env)
    requires Consistent(s) && (a.SetGameOver? || a.StartNewWave?)
    ensures Defined(s, a)
    ensures a.SetGameOver? ==> Consistent(Reduce(s, a, env))
  {
    ConsistentIsWellFormed(s);
    if a.SetGameOver? {
      GameOverDeclared(s, a.winner, env);
    }
  }

  lemma GameOverDeclared(s: GameState, winner: Option<Player>, env: Env)
    requires Consistent(s)
    ensures Defined(s, SetGameOver(winner)) && Consistent(Reduce(s, SetGameOver(winner), env))
  {
    ConsistentIsWellFormed(s);
    assert Reduce(s, SetGameOver(winner), env) == SetGameOverCase(s, winner);
    SetGameOverKeepsConsistent(s, winner);
  }

  /**
   * Once the game is declared over, the check stops, the timer stops, and
   * no click on the board does anything: the result stands.
   */
  lemma GameOverIsFinal(s: GameState, winner: Option<Player>, p: Pos, tutorial: bool, draws: Draws)
    requires Consistent(s) && InBounds(p)
    ensures var r := SetGameOverCase(s, winner);
            && Consistent(r) && r.phase == GameOver && r.winner == winner
            && GameOverCheck(r).None? && TimerTick(r, tutorial).None?
            && CellClick(r, p, tutorial, draws).None?
  {
    SetGameOverKeepsConsistent(s, winner);
  }
}
