/**
 * The game state the reducer of src/app/game/page.tsx works on, with the
 * fields the reducer reads and writes, and the invariants that tie the
 * grid, the live roster and the destroyed roster together.
 */
module Model {
  import opened Common
  import opened Records
  import opened Constants
  import opened Board

  /** `Player`: "player" is the human side, "opponent" the automated one. */
  datatype Player = Human | Opponent

  function Other(p: Player): (q: Player)
    ensures q != p
  {
    if p == Human then Opponent else Human
  }

  /** `StatusEffect` */
  datatype Status = Stunned | Shielded | Empowered

  /** `ActionType`: "move", "attack", "special", "none". */
  datatype ActionKind = NoAction | MoveAction | AttackAction | SpecialAction

  datatype Weather = ClearSkies | StrongWinds | Thunderstorm

  /** `GameMode` */
  datatype Mode = Standard | Survival | Challenge

  /** `GamePhase`: "playing", "gameOver". */
  datatype Phase = Playing | GameOver

  /** The stat block of one aircraft, with the fields the reducer uses. */
  datatype Stats = Stats(
    hp: int, maxHp: int, attack: int, defense: int, range: int, speed: int,
    level: int, xp: int, energy: int, maxEnergy: int,
    actionPoints: int, maxActionPoints: int, specialAbilityCost: int,
    critChance: real, critDamage: real, dodgeChance: real)

  /** `Aircraft`; `cooldown` is `specialAbilityCooldown`, `statuses` is `statusEffects`. */
  datatype Unit = Unit(
    id: Id, owner: Player, kind: Kind, stats: Stats, position: Pos,
    hasMoved: bool, hasAttacked: bool, cooldown: int, statuses: seq<Status>)

  /** `LastMove`: the one move UNDO_MOVE can take back. */
  datatype LastMove = LastMove(id: Id, from: Pos, to: Pos)

  /**
   * One line of the action log. The wording of the source's messages is
   * not modelled, only which event a line reports and the values it shows.
   */
  datatype LogEntry =
    | Moved(mover: Player, moverKind: Kind, to: Pos)
    | Dodged(defender: Player, defenderKind: Kind, attacker: Player, attackerKind: Kind)
    | LeveledUp(unitOwner: Player, unitKind: Kind, level: int)
    | Hit(attacker: Player, attackerKind: Kind, defender: Player, defenderKind: Kind, damage: int, critical: bool)
    | DestroyedLine(lost: Player, lostKind: Kind)
    | Revived(caster: Player, casterKind: Kind, revived: Player, revivedKind: Kind)
    | TurnBegan(turn: int, next: Player)
    | TurnAutoEnded(ended: Player, next: Player)
    | Victory
    | SurvivedWaves(waves: int)
    | Defeat
    | WaveStarted(wave: int)

  /** `BattleSummary`, built by SET_GAME_OVER. */
  datatype BattleSummary = BattleSummary(
    playerUnits: seq<Unit>, opponentDestroyed: nat, playerLost: nat,
    xpGained: map<Id, int>, totalTurns: int, totalDamageDealt: int, totalDamageTaken: int)

  /**
   * `GameState`. `highlights` is `actionHighlights`, which the source only
   * ever queries for membership; `visible` is `visibleGrid`, absent until
   * the first END_TURN; `units` and `destroyed` are `aircrafts` and
   * `destroyedAircrafts`; `initialUnits` is `initialAircrafts`.
   */
  datatype GameState = GameState(
    grid: Grid,
    units: Record<Id, Unit>,
    destroyed: Record<Id, Unit>,
    currentPlayer: Player,
    phase: Phase,
    winner: Option<Player>,
    selected: Option<Id>,
    selectedAction: ActionKind,
    highlights: set<Pos>,
    attackable: seq<Id>,
    supportable: seq<Id>,
    turnNumber: int,
    lastMove: Option<LastMove>,
    log: seq<LogEntry>,
    turnTimeRemaining: int,
    visible: Option<seq<seq<bool>>>,
    weather: Weather,
    mode: Mode,
    waveNumber: int,
    damageDealt: int,
    damageTaken: int,
    initialUnits: map<Id, Unit>,
    summary: Option<BattleSummary>)

  /** The log keeps its last five lines (`.slice(-5)`). */
  const LogLimit: int := 5

  function Recent(log: seq<LogEntry>): (r: seq<LogEntry>)
    ensures |r| <= LogLimit
    ensures |log| <= LogLimit ==> r == log
    ensures |log| > LogLimit ==> |r| == LogLimit
    ensures forall i | 0 <= i < |r| :: r[i] == log[|log| - |r| + i]
  {
    if |log| <= LogLimit then log else log[|log| - LogLimit..]
  }

  /** `[...state.actionLog, line].slice(-5)` */
  function Append(log: seq<LogEntry>, line: LogEntry): (r: seq<LogEntry>)
    ensures |r| <= LogLimit && |r| > 0 && r[|r| - 1] == line
    ensures |log| < LogLimit ==> r == log + [line]
  {
    Recent(log + [line])
  }

  /** `log.slice(0, -1)`: every line but the last; nothing for an empty log. */
  function DropLast(log: seq<LogEntry>): (r: seq<LogEntry>)
    ensures log != [] ==> r + [log[|log| - 1]] == log
    ensures log == [] ==> r == []
  {
    if log == [] then [] else log[..|log| - 1]
  }

  /** The units stored under `keys`, in that order: `Object.values` of the roster. */
  function ValuesOf(keys: seq<Id>, entries: map<Id, Unit>): (us: seq<Unit>)
    requires forall k | k in keys :: k in entries
    ensures |us| == |keys|
    ensures forall i | 0 <= i < |keys| :: us[i] == entries[keys[i]]
  {
    if keys == [] then [] else [entries[keys[0]]] + ValuesOf(keys[1..], entries)
  }

  /** The units of `us` that belong to `who`, in order (`.filter(a => a.owner === who)`). */
  function OwnedBy(us: seq<Unit>, who: Player): (r: seq<Unit>)
    ensures forall u :: u in r <==> u in us && u.owner == who
    ensures |r| <= |us|
  {
    if us == [] then []
    else if us[0].owner == who then [us[0]] + OwnedBy(us[1..], who)
    else OwnedBy(us[1..], who)
  }

  /** `Object.values(record)` */
  function Roster(r: Record<Id, Unit>): (us: seq<Unit>)
    requires Valid(r)
    ensures |us| == |r.keys|
    ensures forall i | 0 <= i < |us| :: us[i] == r.entries[r.keys[i]]
  {
    ValuesOf(r.keys, r.entries)
  }

  /** `Object.values(record).filter(a => a.owner === who)` */
  function UnitsOf(r: Record<Id, Unit>, who: Player): (us: seq<Unit>)
    requires Valid(r)
    ensures forall u :: u in us <==> u in r.entries.Values && u.owner == who
  {
    var all := Roster(r);
    assert forall u | u in r.entries.Values :: u in all by {
      forall u | u in r.entries.Values ensures u in all {
        var k :| k in r.entries && r.entries[k] == u;
        var i :| 0 <= i < |r.keys| && r.keys[i] == k;
        assert all[i] == u;
      }
    }
    OwnedBy(all, who)
  }

  /** Every stored unit sits under its own id. */
  ghost predicate KeyedById(r: Record<Id, Unit>) {
    forall k | k in r.entries :: r.entries[k].id == k
  }

  /** Every unit of the roster stands on the board. */
  ghost predicate OnBoard(entries: map<Id, Unit>) {
    forall k | k in entries :: InBounds(entries[k].position)
  }

  /**
   * The shape every state the reducer is given has: a 12 x 12 grid, both
   * rosters well formed and keyed by id, every live unit on the board.
   */
  ghost predicate WellFormed(s: GameState) {
    && Shaped(s.grid)
    && Valid(s.units) && KeyedById(s.units)
    && Valid(s.destroyed) && KeyedById(s.destroyed)
    && OnBoard(s.units.entries)
  }

  /** The grid and a roster describe the same placement: each unit's cell holds its id, and each id on the grid is a unit standing there. */
  ghost predicate Placement(g: Grid, entries: map<Id, Unit>)
    requires Shaped(g) && OnBoard(entries)
  {
    && (forall k: Id | k in entries :: At(g, entries[k].position) == Some(k))
    && (forall p | InBounds(p) && At(g, p).Some? ::
          At(g, p).value in entries && entries[At(g, p).value].position == p)
  }

  /** The grid matches the live roster. */
  ghost predicate GridMatches(s: GameState)
    requires WellFormed(s)
  {
    Placement(s.grid, s.units.entries)
  }

  /** `0 <= hp <= maxHp`, `0 <= actionPoints <= maxActionPoints`, and the stat ranges the arithmetic relies on. */
  predicate UnitOk(u: Unit) {
    && 0 <= u.stats.hp <= u.stats.maxHp && 0 < u.stats.maxHp
    && 0 <= u.stats.actionPoints <= u.stats.maxActionPoints
    && u.stats.critDamage >= 1.0
  }

  ghost predicate AllOk(entries: map<Id, Unit>) {
    forall k | k in entries :: UnitOk(entries[k])
  }

  /**
   * The board and both rosters: a 12 x 12 grid, both rosters well formed
   * and keyed by id, the grid matching the live roster, no unit both live
   * and destroyed, and every unit's stats in range.
   */
  ghost predicate Rosters(g: Grid, units: Record<Id, Unit>, destroyed: Record<Id, Unit>) {
    && Shaped(g)
    && Valid(units) && KeyedById(units) && OnBoard(units.entries)
    && Valid(destroyed) && KeyedById(destroyed)
    && Placement(g, units.entries)
    && (forall k | k in units.entries :: k !in destroyed.entries)
    && AllOk(units.entries) && AllOk(destroyed.entries)
  }

  /** A selected unit is live and belongs to the player whose turn it is. */
  ghost predicate SelectionOk(selected: Option<Id>, units: Record<Id, Unit>, current: Player) {
    selected.Some? ==> selected.value in units.entries && units.entries[selected.value].owner == current
  }

  /** The last move, while its unit stands where it went, can be taken back: its origin is still empty and an action point is missing. */
  ghost predicate LastMoveOk(lastMove: Option<LastMove>, g: Grid, units: Record<Id, Unit>)
    requires Shaped(g)
  {
    lastMove.Some? ==>
      var m := lastMove.value;
      && InBounds(m.from) && InBounds(m.to) && m.from != m.to
      && (m.id in units.entries ==>
            var u := units.entries[m.id];
            u.position == m.to && At(g, m.from).None? &&
            u.stats.actionPoints < u.stats.maxActionPoints)
  }

  /**
   * What a state reachable through the user interface keeps true: the
   * rosters and the grid agree, the selection is the current player's,
   * highlighted cells are on the board, and the last move can be undone.
   */
  ghost predicate Consistent(s: GameState) {
    && Rosters(s.grid, s.units, s.destroyed)
    && SelectionOk(s.selected, s.units, s.currentPlayer)
    && (forall p | p in s.highlights :: InBounds(p))
    && LastMoveOk(s.lastMove, s.grid, s.units)
  }

  lemma ConsistentIsWellFormed(s: GameState)
    requires Consistent(s)
    ensures WellFormed(s) && GridMatches(s)
  {
  }

  // ---------------------------------------------------------------- how placements change

  /** Moving unit `id` to an open cell `to` keeps grid and roster in step. */
  lemma PlacementMove(g: Grid, e: map<Id, Unit>, id: Id, to: Pos, v: Unit)
    requires Shaped(g) && OnBoard(e) && Placement(g, e)
    requires id in e && Open(g, to) && v.position == to
    ensures OnBoard(e[id := v])
    ensures Placement(Place(Place(g, e[id].position, None), to, Some(id)), e[id := v])
  {
    var from := e[id].position;
    var g' := Place(Place(g, from, None), to, Some(id));
    var e' := e[id := v];
    assert from != to;
    forall k: Id | k in e'
      ensures At(g', e'[k].position) == Some(k)
    {
      if k != id {
        assert At(g, e[k].position) == Some(k);
      }
    }
    forall p | InBounds(p) && At(g', p).Some?
      ensures At(g', p).value in e' && e'[At(g', p).value].position == p
    {
      if p != to {
        assert At(g', p) == At(g, p);
      }
    }
  }

  /** Taking unit `id` off the board (and its cell cleared) keeps grid and roster in step. */
  lemma PlacementRemove(g: Grid, e: map<Id, Unit>, id: Id)
    requires Shaped(g) && OnBoard(e) && Placement(g, e) && id in e
    ensures OnBoard(e - {id})
    ensures Placement(Place(g, e[id].position, None), e - {id})
  {
    var g' := Place(g, e[id].position, None);
    var e' := e - {id};
    forall k: Id | k in e'
      ensures At(g', e'[k].position) == Some(k)
    {
      assert At(g, e[k].position) == Some(k);
    }
  }

  /** Putting a new unit `id` on an open cell keeps grid and roster in step. */
  lemma PlacementAdd(g: Grid, e: map<Id, Unit>, id: Id, v: Unit)
    requires Shaped(g) && OnBoard(e) && Placement(g, e)
    requires id !in e && Open(g, v.position)
    ensures OnBoard(e[id := v])
    ensures Placement(Place(g, v.position, Some(id)), e[id := v])
  {
    var g' := Place(g, v.position, Some(id));
    var e' := e[id := v];
    forall k: Id | k in e'
      ensures At(g', e'[k].position) == Some(k)
    {
      if k != id {
        assert At(g, e[k].position) == Some(k);
      }
    }
    forall p | InBounds(p) && At(g', p).Some?
      ensures At(g', p).value in e' && e'[At(g', p).value].position == p
    {
      if p != v.position {
        assert At(g', p) == At(g, p);
      }
    }
  }

  /** Changing anything about unit `id` but its position keeps grid and roster in step. */
  lemma PlacementUpdate(g: Grid, e: map<Id, Unit>, id: Id, v: Unit)
    requires Shaped(g) && OnBoard(e) && Placement(g, e)
    requires id in e && v.position == e[id].position
    ensures OnBoard(e[id := v]) && Placement(g, e[id := v])
  {
  }

  // ---------------------------------------------------------------- how the rosters change

  /** Moving live unit `id` to an open cell keeps the rosters and the grid in step. */
  lemma RostersMove(g: Grid, units: Record<Id, Unit>, destroyed: Record<Id, Unit>, id: Id, from: Pos, to: Pos, v: Unit)
    requires Rosters(g, units, destroyed)
    requires id in units.entries && units.entries[id].position == from
    requires Open(g, to) && v.position == to && v.id == id && UnitOk(v)
    ensures Rosters(Place(Place(g, from, None), to, Some(id)), Put(units, id, v), destroyed)
  {
    PlacementMove(g, units.entries, id, to, v);
  }

  /** Changing anything but the position of live unit `id` keeps the rosters and the grid in step. */
  lemma RostersUpdate(g: Grid, units: Record<Id, Unit>, destroyed: Record<Id, Unit>, id: Id, v: Unit)
    requires Rosters(g, units, destroyed)
    requires id in units.entries && v.position == units.entries[id].position && v.id == id && UnitOk(v)
    ensures Rosters(g, Put(units, id, v), destroyed)
  {
    PlacementUpdate(g, units.entries, id, v);
  }

  /** Moving live unit `id` to the destroyed roster and clearing its cell keeps the rosters and the grid in step. */
  lemma RostersDestroy(g: Grid, units: Record<Id, Unit>, destroyed: Record<Id, Unit>, id: Id, v: Unit)
    requires Rosters(g, units, destroyed)
    requires id in units.entries && v.id == id && UnitOk(v)
    ensures Rosters(Place(g, units.entries[id].position, None), Remove(units, id), Put(destroyed, id, v))
  {
    PlacementRemove(g, units.entries, id);
  }

  /** Bringing destroyed unit `id` back onto an open cell keeps the rosters and the grid in step. */
  lemma RostersRevive(g: Grid, units: Record<Id, Unit>, destroyed: Record<Id, Unit>, id: Id, v: Unit)
    requires Rosters(g, units, destroyed)
    requires id in destroyed.entries && Open(g, v.position) && v.id == id && UnitOk(v)
    ensures Rosters(Place(g, v.position, Some(id)), Put(units, id, v), Remove(destroyed, id))
  {
    PlacementAdd(g, units.entries, id, v);
  }
}
