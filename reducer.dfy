/**
 * `gameReducer` (src/app/game/page.tsx:61-579): one pure function from a
 * state and an intent to the next state, one function per case. The two
 * random draws of ATTACK_AIRCRAFT, the turn time limit and the wave
 * spawner are inputs.
 */
module Reducer {
  import opened Common
  import opened Records
  import opened Constants
  import opened Board
  import opened Model
  import opened Vision

  /** The outcomes of the two `Math.random()` draws of an attack (page.tsx:215, 229). */
  datatype Draws = Draws(didDodge: bool, isCritical: bool)

  /**
   * What the reducer uses but the shown files do not define: the value of
   * TURN_TIME_LIMIT and the `spawnWave` function of game-utils.
   */
  datatype Env = Env(
    turnTimeLimit: int,
    spawnWave: (int, Grid, Record<Id, Unit>) -> (Record<Id, Unit>, Grid))

  /** `GameAction`, without the animation-only SHOW_ANIMATION and CLEAR_ANIMATION. */
  datatype Action =
    | SelectAircraft(aircraftId: Id)
    | SelectAction(kind: ActionKind)
    | MoveAircraft(to: Pos)
    | AttackAircraft(targetId: Id, draws: Draws)
    | SpecialAircraft(reviveId: Option<Id>, position: Option<Pos>)
    | UndoMove
    | EndTurn
    | StartOpponentTurn
    | SetGameOver(winner: Option<Player>)
    | ResetGame(restarted: GameState)
    | UpdateStatusEffects
    | TickTimer
    | StartNewWave

  function Max(a: int, b: int): int { if a >= b then a else b }
  function Min(a: int, b: int): int { if a <= b then a else b }

  /** `statuses.filter(e => e !== s)` */
  function Without(statuses: seq<Status>, s: Status): (r: seq<Status>)
    ensures forall t :: t in r <==> t in statuses && t != s
    ensures |r| <= |statuses|
  {
    if statuses == [] then []
    else if statuses[0] == s then Without(statuses[1..], s)
    else [statuses[0]] + Without(statuses[1..], s)
  }

  /** How many times `s` occurs in `statuses`. */
  function Occurrences(statuses: seq<Status>, s: Status): nat {
    if statuses == [] then 0
    else (if statuses[0] == s then 1 else 0) + Occurrences(statuses[1..], s)
  }

  /** The unit stored under `id`, if any. */
  function Lookup(r: Record<Id, Unit>, id: Id): (u: Option<Unit>)
    ensures u.Some? <==> id in r.entries
    ensures u.Some? ==> u.value == r.entries[id]
  {
    if id in r.entries then Some(r.entries[id]) else None
  }

  // ---------------------------------------------------------------- selection

  /** SELECT_AIRCRAFT (page.tsx:63-76). The lookup at :65 needs a live id. */
  function SelectAircraftCase(s: GameState, id: Id): (r: GameState)
    requires id in s.units.entries
  {
    var u := s.units.entries[id];
    if u.owner != s.currentPlayer || s.phase == GameOver then s
    else s.(selected := Some(id), selectedAction := NoAction, highlights := {}, attackable := [], supportable := [])
  }

  /** Attack range after weather: one less under Thunderstorm (page.tsx:112). */
  function AttackRange(w: Weather, range: int): int {
    if w == Thunderstorm then range - 1 else range
  }

  /** The units of `us` not owned by `current` within distance `reach` of `from`, in order (page.tsx:113-117). */
  function InReach(us: seq<Unit>, current: Player, from: Pos, reach: int): (r: seq<Unit>)
    ensures forall u :: u in r <==> u in us && u.owner != current && Manhattan(u.position, from) <= reach
  {
    if us == [] then []
    else
      var rest := InReach(us[1..], current, from, reach);
      assert forall u | u in us[1..] :: u in us;
      assert forall u | u in us :: u == us[0] || u in us[1..];
      if us[0].owner != current && Manhattan(us[0].position, from) <= reach then [us[0]] + rest else rest
  }

  /** `.map(a => a.id)` */
  function Ids(us: seq<Unit>): (ids: seq<Id>)
    ensures |ids| == |us|
    ensures forall i | 0 <= i < |us| :: ids[i] == us[i].id
  {
    if us == [] then [] else [us[0].id] + Ids(us[1..])
  }

  /** The attackable set for a unit standing on `from` with range `range` (page.tsx:111-118). */
  function Attackable(s: GameState, from: Pos, range: int): seq<Id>
    requires Valid(s.units)
  {
    Ids(InReach(Roster(s.units), s.currentPlayer, from, AttackRange(s.weather, range)))
  }

  /** The requires the source's lookups of the selected unit need (page.tsx:81, 154, 189, 299). */
  ghost predicate SelectionLive(s: GameState) {
    s.selected.Some? ==> s.selected.value in s.units.entries
  }

  /**
   * SELECT_ACTION (page.tsx:78-149). Moving highlights the cells the
   * breadth-first search reaches; attacking lists the enemies in range;
   * a support's special, when off cooldown and affordable, highlights every
   * open cell if a friendly unit is down and otherwise only resets the
   * chosen action; anything else resets the choice.
   */
  function SelectActionCase(s: GameState, kind: ActionKind): (r: GameState)
    requires WellFormed(s) && SelectionLive(s)
  {
    if s.selected.None? then s
    else
      var u := s.units.entries[s.selected.value];
      if u.stats.actionPoints <= 0 then s
      else if kind == MoveAction then
        s.(selectedAction := MoveAction, highlights := MoveTargets(s.grid, u.position, u.stats.speed),
           attackable := [], supportable := [])
      else if kind == AttackAction then
        s.(selectedAction := AttackAction, highlights := {},
           attackable := Attackable(s, u.position, u.stats.range), supportable := [])
      else if kind == SpecialAction && u.cooldown == 0 && u.stats.energy >= u.stats.specialAbilityCost
              && u.kind == Support then
        if |UnitsOf(s.destroyed, s.currentPlayer)| == 0 then s.(selectedAction := NoAction)
        else s.(selectedAction := SpecialAction, highlights := OpenCells(s.grid), attackable := [], supportable := [])
      else
        s.(selectedAction := NoAction, highlights := {}, attackable := [], supportable := [])
  }

  // ---------------------------------------------------------------- moving

  /** `u` standing on `to` with `actionPoints` action points, otherwise unchanged. */
  function Relocated(u: Unit, to: Pos, actionPoints: int): (v: Unit)
    ensures v.position == to && v.stats.actionPoints == actionPoints
    ensures v.(position := u.position, stats := v.stats.(actionPoints := u.stats.actionPoints)) == u
  {
    u.(position := to, stats := u.stats.(actionPoints := actionPoints))
  }

  /** MOVE_AIRCRAFT (page.tsx:151-184); the target cell is on the board. */
  function MoveCase(s: GameState, to: Pos): (r: GameState)
    requires WellFormed(s) && SelectionLive(s) && InBounds(to)
  {
    if s.selected.None? || s.selectedAction != MoveAction then s
    else
      var u := s.units.entries[s.selected.value];
      if u.stats.actionPoints <= 0 then s
      else
        var g := Place(Place(s.grid, u.position, None), to, Some(u.id));
        var moved := Relocated(u, to, u.stats.actionPoints - 1);
        s.(grid := g, units := Put(s.units, s.selected.value, moved), selectedAction := NoAction,
           highlights := {}, lastMove := Some(LastMove(u.id, u.position, to)),
           log := Append(s.log, Moved(u.owner, u.kind, to)))
  }

  /** The requires UNDO_MOVE's grid and roster accesses need (page.tsx:369-374). */
  ghost predicate UndoDefined(s: GameState)
    requires Shaped(s.grid)
  {
    s.lastMove.Some? ==>
      InBounds(s.lastMove.value.from) && InBounds(s.lastMove.value.to) &&
      (At(s.grid, s.lastMove.value.to) == Some(s.lastMove.value.id) ==> s.lastMove.value.id in s.units.entries)
  }

  /** UNDO_MOVE (page.tsx:368-395). */
  function UndoCase(s: GameState): (r: GameState)
    requires WellFormed(s) && UndoDefined(s)
  {
    if s.lastMove.None? then s
    else
      var m := s.lastMove.value;
      if At(s.grid, m.to) != Some(m.id) then s
      else
        var u := s.units.entries[m.id];
        var g := Place(Place(s.grid, m.to, None), m.from, Some(u.id));
        var back := Relocated(u, m.from, u.stats.actionPoints + 1);
        s.(grid := g, units := Put(s.units, m.id, back), lastMove := None, selectedAction := NoAction,
           highlights := {}, log := DropLast(s.log))
  }

  // ---------------------------------------------------------------- combat

  /** `Math.max(1, attack - defense)` (page.tsx:230). */
  function BaseDamage(attack: int, defense: int): (d: int)
    ensures d >= 1 && d >= attack - defense
    ensures d == 1 || d == attack - defense
  {
    Max(1, attack - defense)
  }

  /** The damage of a hit (page.tsx:229-231): a critical hit scales the base by `critDamage`, rounded down. */
  function Damage(attacker: Stats, defender: Stats, critical: bool): (d: int)
    ensures !critical ==> d == BaseDamage(attacker.attack, defender.defense)
    ensures attacker.critDamage >= 1.0 ==> d >= BaseDamage(attacker.attack, defender.defense) >= 1
  {
    var base := BaseDamage(attacker.attack, defender.defense);
    if critical then (base as real * attacker.critDamage).Floor else base
  }

  /** The level-up bonus (page.tsx:246-254). */
  function LevelUp(st: Stats): (r: Stats)
    ensures r.level == st.level + 1 && r.xp == 0 && r.attack == st.attack + 5
    ensures r.maxHp == st.maxHp + 10 && r.hp == st.hp + 10
    ensures r.(level := st.level, xp := st.xp, attack := st.attack, maxHp := st.maxHp, hp := st.hp) == st
  {
    st.(level := st.level + 1, xp := 0, attack := st.attack + 5, maxHp := st.maxHp + 10, hp := st.hp + 10)
  }

  /** The attacker's stats after a hit for `damage`: XP, one action point, and the level-up if XP reaches `100 * level`. */
  function AfterHit(st: Stats, damage: int): (r: Stats)
  {
    var gained := st.(xp := st.xp + damage, actionPoints := st.actionPoints - 1);
    if gained.xp >= 100 * gained.level then LevelUp(gained) else gained
  }

  /** ATTACK_AIRCRAFT (page.tsx:186-294). The lookup of the defender at :192 needs a live target. */
  function AttackCase(s: GameState, targetId: Id, draws: Draws): (r: GameState)
    requires WellFormed(s) && SelectionLive(s) && targetId in s.units.entries
  {
    if s.selected.None? || s.selectedAction != AttackAction then s
    else
      var attacker := s.units.entries[s.selected.value];
      if attacker.stats.actionPoints <= 0 then s
      else
        var defender := s.units.entries[targetId];
        var charged := Put(s.units, attacker.id,
                           attacker.(stats := attacker.stats.(actionPoints := attacker.stats.actionPoints - 1)));
        if draws.didDodge then
          s.(units := charged, selectedAction := NoAction, attackable := [], lastMove := None,
             log := Recent(s.log + [Dodged(defender.owner, defender.kind, attacker.owner, attacker.kind)]))
        else
          var damage := Damage(attacker.stats, defender.stats, draws.isCritical);
          var dealt := if attacker.owner == Human then s.damageDealt + damage else s.damageDealt;
          var taken := if attacker.owner == Human then s.damageTaken else s.damageTaken + damage;
          var newHp := defender.stats.hp - damage;
          var after := AfterHit(attacker.stats, damage);
          var levelLine := if after.level != attacker.stats.level then [LeveledUp(attacker.owner, attacker.kind, after.level)] else [];
          var lines := levelLine + [Hit(attacker.owner, attacker.kind, defender.owner, defender.kind, damage, draws.isCritical)];
          var scored := Put(charged, attacker.id, attacker.(stats := after));
          if newHp <= 0 then
            s.(units := Remove(scored, targetId),
               destroyed := Put(s.destroyed, defender.id, defender.(stats := defender.stats.(hp := 0))),
               grid := Place(s.grid, defender.position, None),
               selectedAction := NoAction, attackable := [], supportable := [], lastMove := None,
               log := Recent(s.log + lines + [DestroyedLine(defender.owner, defender.kind)]),
               damageDealt := dealt, damageTaken := taken)
          else
            s.(units := Put(scored, targetId, defender.(stats := defender.stats.(hp := newHp))),
               selectedAction := NoAction, attackable := [], supportable := [], lastMove := None,
               log := Recent(s.log + lines), damageDealt := dealt, damageTaken := taken)
  }

  // ---------------------------------------------------------------- revival

  /** `Math.floor(maxHp * 0.25)` (page.tsx:319). */
  function ReviveHp(maxHp: int): int {
    (maxHp as real * 0.25).Floor
  }

  /** The unit SPECIAL_AIRCRAFT brings back: the one named, or else the current player's first destroyed unit (page.tsx:306-310). */
  function Chosen(s: GameState, reviveId: Option<Id>): (d: Option<Unit>)
    requires Valid(s.destroyed)
    requires reviveId.None? ==> |UnitsOf(s.destroyed, s.currentPlayer)| > 0
  {
    if reviveId.Some? then Lookup(s.destroyed, reviveId.value) else Some(UnitsOf(s.destroyed, s.currentPlayer)[0])
  }

  /** Reviving at a quarter of `maxHp`, rounded down, is integer division by 4 (page.tsx:319). */
  lemma ReviveHpIsQuarter(maxHp: int)
    ensures ReviveHp(maxHp) == maxHp / 4
  {
    var q, r := maxHp / 4, maxHp % 4;
    assert maxHp == 4 * q + r && 0 <= r < 4;
    assert maxHp as real * 0.25 == q as real + r as real / 4.0;
  }

  /** Dropping every `Empowered` and adding one leaves exactly one (page.tsx:343). */
  lemma {:induction false} OneEmpowered(statuses: seq<Status>)
    ensures Occurrences(Without(statuses, Empowered) + [Empowered], Empowered) == 1
  {
    NoneLeft(statuses);
    OccurrencesAppend(Without(statuses, Empowered), [Empowered]);
  }

  lemma {:induction false} NoneLeft(statuses: seq<Status>)
    ensures Occurrences(Without(statuses, Empowered), Empowered) == 0
  {
    if statuses != [] {
      NoneLeft(statuses[1..]);
      if statuses[0] != Empowered {
        assert ([statuses[0]] + Without(statuses[1..], Empowered))[1..] == Without(statuses[1..], Empowered);
      }
    }
  }

  lemma {:induction false} OccurrencesAppend(a: seq<Status>, b: seq<Status>)
    ensures Occurrences(a + b, Empowered) == Occurrences(a, Empowered) + Occurrences(b, Empowered)
  {
    if a != [] {
      assert (a + b)[1..] == a[1..] + b;
      OccurrencesAppend(a[1..], b);
    } else {
      assert a + b == b;
    }
  }

  /** A revived unit (page.tsx:314-324): at `p` with a quarter of its maximum health, no action points, no cooldown and no statuses. */
  function Restored(d: Unit, p: Pos): (v: Unit)
    ensures v.position == p && v.stats.hp == d.stats.maxHp / 4 && v.stats.actionPoints == 0
    ensures v.cooldown == 0 && v.statuses == []
    ensures v.(position := d.position, stats := v.stats.(hp := d.stats.hp, actionPoints := d.stats.actionPoints),
               cooldown := d.cooldown, statuses := d.statuses) == d
  {
    ReviveHpIsQuarter(d.stats.maxHp);
    d.(position := p, stats := d.stats.(hp := ReviveHp(d.stats.maxHp), actionPoints := 0), cooldown := 0, statuses := [])
  }

  /** The caster after a revival (page.tsx:333-344): the cost paid, one action point spent, a cooldown of 5 and empowered exactly once. */
  function Spent(c: Unit): (v: Unit)
    ensures v.stats == c.stats.(energy := c.stats.energy - c.stats.specialAbilityCost, actionPoints := c.stats.actionPoints - 1)
    ensures v.cooldown == 5 && Occurrences(v.statuses, Empowered) == 1
    ensures forall t :: t in v.statuses <==> t == Empowered || t in c.statuses
    ensures v.(stats := c.stats, cooldown := c.cooldown, statuses := c.statuses) == c
  {
    OneEmpowered(c.statuses);
    c.(stats := c.stats.(energy := c.stats.energy - c.stats.specialAbilityCost, actionPoints := c.stats.actionPoints - 1),
       cooldown := 5, statuses := Without(c.statuses, Empowered) + [Empowered])
  }

  /**
   * SPECIAL_AIRCRAFT (page.tsx:296-366): a support brings a destroyed unit
   * back at `position` — the one named by `reviveId` when given, else the
   * first destroyed unit of the current player. Without a destroyed
   * friendly, without a position, or with an unknown `reviveId` nothing
   * happens. The position is on the board.
   */
  function SpecialCase(s: GameState, reviveId: Option<Id>, position: Option<Pos>): (r: GameState)
    requires WellFormed(s) && SelectionLive(s)
    requires position.Some? ==> InBounds(position.value)
  {
    if s.selected.None? || s.selectedAction != SpecialAction then s
    else
      var caster := s.units.entries[s.selected.value];
      if caster.stats.actionPoints <= 0 || caster.kind != Support then s
      else if |UnitsOf(s.destroyed, s.currentPlayer)| == 0 || position.None? then s
      else
        var chosen := Chosen(s, reviveId);
        if chosen.None? then s
        else
          var d := chosen.value;
          s.(units := Put(Put(s.units, d.id, Restored(d, position.value)), caster.id, Spent(caster)),
             destroyed := Remove(s.destroyed, d.id),
             grid := Place(s.grid, position.value, Some(d.id)),
             selectedAction := NoAction, highlights := {}, lastMove := None,
             log := Append(s.log, Revived(caster.owner, caster.kind, d.owner, d.kind)))
  }

  // ---------------------------------------------------------------- turns

  /**
   * One unit at a change of turn (page.tsx:403-424, 535-542): the incoming
   * side's units get their action points back and 10 energy up to the
   * maximum; the outgoing side's units count their cooldown down to zero
   * and lose `empowered`.
   */
  function Refresh(u: Unit, outgoing: Player): (r: Unit)
  {
    var a := if u.owner == Other(outgoing)
             then u.(stats := u.stats.(actionPoints := u.stats.maxActionPoints,
                                       energy := Min(u.stats.maxEnergy, u.stats.energy + 10)))
             else u;
    if u.owner == outgoing then a.(cooldown := Max(0, u.cooldown - 1), statuses := Without(u.statuses, Empowered))
    else a
  }

  /** `Object.values(state.aircrafts).forEach(...)` over the live roster, keys in place. */
  function RefreshAll(r: Record<Id, Unit>, outgoing: Player): (r': Record<Id, Unit>)
    ensures r'.keys == r.keys && r'.entries.Keys == r.entries.Keys
    ensures forall k | k in r.entries :: r'.entries[k] == Refresh(r.entries[k], outgoing)
  {
    Record(r.keys, map k | k in r.entries :: Refresh(r.entries[k], outgoing))
  }

  /** The unit, turn and selection updates END_TURN and an expiring TICK_TIMER share. */
  function TurnOver(s: GameState, env: Env, line: LogEntry): (r: GameState)
  {
    var next := Other(s.currentPlayer);
    s.(currentPlayer := next, selected := None, selectedAction := NoAction, highlights := {},
       attackable := [], supportable := [], units := RefreshAll(s.units, s.currentPlayer),
       turnNumber := if next == Human then s.turnNumber + 1 else s.turnNumber,
       lastMove := None, log := Append(s.log, line), turnTimeRemaining := env.turnTimeLimit)
  }

  /** END_TURN (page.tsx:397-467): the change of turn, and the new visibility grid. */
  function EndTurnCase(s: GameState, env: Env): (r: GameState)
    requires Valid(s.units)
  {
    var next := Other(s.currentPlayer);
    var turn := if next == Human then s.turnNumber + 1 else s.turnNumber;
    var t := TurnOver(s, env, TurnBegan(turn, next));
    t.(visible := Some(VisionMask(UnitsOf(t.units, Human), next == Opponent)))
  }

  /** TICK_TIMER (page.tsx:524-560): count the timer down; when it runs out, end the turn, leaving the visibility grid as it was. */
  function TickTimerCase(s: GameState, env: Env): (r: GameState)
  {
    if s.phase != Playing then s
    else if s.turnTimeRemaining - 1 <= 0 then TurnOver(s, env, TurnAutoEnded(s.currentPlayer, Other(s.currentPlayer)))
    else s.(turnTimeRemaining := s.turnTimeRemaining - 1)
  }

  // ---------------------------------------------------------------- game over and waves

  /** `xpGained` (page.tsx:476-482): for each player unit with an initial snapshot, the XP it earned. */
  function XpGained(players: seq<Unit>, initial: map<Id, Unit>): (m: map<Id, int>)
    ensures forall k :: k in m <==> k in initial && exists i | 0 <= i < |players| :: players[i].id == k
  {
    if players == [] then map[]
    else
      var last := players[|players| - 1];
      var rest := XpGained(players[..|players| - 1], initial);
      assert forall i | 0 <= i < |players| - 1 :: players[..|players| - 1][i] == players[i];
      if last.id in initial then rest[last.id := last.stats.xp - initial[last.id].stats.xp] else rest
  }

  /** SET_GAME_OVER (page.tsx:469-499). */
  function SetGameOverCase(s: GameState, winner: Option<Player>): (r: GameState)
    requires Valid(s.units) && Valid(s.destroyed)
  {
    var players := UnitsOf(s.units, Human);
    var summary := BattleSummary(players, |UnitsOf(s.destroyed, Opponent)|, |UnitsOf(s.destroyed, Human)|,
                                 XpGained(players, s.initialUnits), s.turnNumber, s.damageDealt, s.damageTaken);
    var line := if winner == Some(Human) then (if s.mode == Survival then SurvivedWaves(s.waveNumber) else Victory)
                else Defeat;
    s.(phase := GameOver, winner := winner, summary := Some(summary), log := Append(s.log, line))
  }

  /** The wave after `wave`: `(waveNumber || 1) + 1`, where an unset wave number reads as 0. */
  function NextWave(wave: int): int {
    (if wave == 0 then 1 else wave) + 1
  }

  /** START_NEW_WAVE (page.tsx:562-574): only in survival mode. */
  function StartNewWaveCase(s: GameState, env: Env): (r: GameState)
  {
    if s.mode != Survival then s
    else
      var wave := NextWave(s.waveNumber);
      var spawned := env.spawnWave(wave, s.grid, s.units);
      s.(waveNumber := wave, units := spawned.0, grid := spawned.1, log := Append(s.log, WaveStarted(wave)))
  }

  // ---------------------------------------------------------------- dispatch

  /** The lookups and writes the reducer performs for `a` succeed on `s`. */
  ghost predicate Defined(s: GameState, a: Action) {
    && WellFormed(s)
    && (a.SelectAction? || a.MoveAircraft? || a.AttackAircraft? || a.SpecialAircraft? ==> SelectionLive(s))
    && (a.UndoMove? ==> UndoDefined(s))
    && (a.SelectAircraft? ==> a.aircraftId in s.units.entries)
    && (a.MoveAircraft? ==> InBounds(a.to))
    && (a.AttackAircraft? ==> a.targetId in s.units.entries)
    && (a.SpecialAircraft? && a.position.Some? ==> InBounds(a.position.value))
  }

  /** `gameReducer` */
  function Reduce(s: GameState, a: Action, env: Env): (r: GameState)
    requires Defined(s, a)
  {
    match a
    case SelectAircraft(id) => SelectAircraftCase(s, id)
    case SelectAction(kind) => SelectActionCase(s, kind)
    case MoveAircraft(to) => MoveCase(s, to)
    case AttackAircraft(target, draws) => AttackCase(s, target, draws)
    case SpecialAircraft(reviveId, position) => SpecialCase(s, reviveId, position)
    case UndoMove => UndoCase(s)
    case EndTurn => EndTurnCase(s, env)
    case StartOpponentTurn => s
    case SetGameOver(winner) => SetGameOverCase(s, winner)
    case ResetGame(restarted) => restarted
    case UpdateStatusEffects => s
    case TickTimer => TickTimerCase(s, env)
    case StartNewWave => StartNewWaveCase(s, env)
  }
}
