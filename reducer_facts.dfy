/**
 * What each reducer case does, stated against the state it is given:
 * the guards that make it a no-op, the exact changes when it runs, and the
 * numeric rules (damage, level-up, revival health, energy, cooldowns).
 */
module ReducerFacts {
  import opened Common
  import opened Records
  import opened Constants
  import opened Board
  import opened Model
  import opened Vision
  import opened Reducer

  // ---------------------------------------------------------------- arithmetic

  /** With a `critDamage` of 1.5, a critical hit deals exactly `base * 3 / 2` (page.tsx:231). */
  lemma CriticalIsThreeHalves(base: int)
    requires base >= 0
    ensures (base as real * 1.5).Floor == base * 3 / 2
  {
    var q, r := base * 3 / 2, base * 3 % 2;
    assert base * 3 == 2 * q + r && 0 <= r < 2;
    assert base as real * 1.5 == q as real + r as real / 2.0;
  }

  /** A revived unit's health lies between 0 and its maximum. */
  lemma ReviveHpInRange(maxHp: int)
    requires maxHp > 0
    ensures 0 <= ReviveHp(maxHp) <= maxHp
  {
    ReviveHpIsQuarter(maxHp);
  }

  /** Damage between two units with the table's stats, hit or critical: at least 1, and `base * 3 / 2` on a critical hit. */
  lemma DamageOfTableStats(attacker: Stats, defender: Stats, critical: bool)
    requires attacker.critDamage == 1.5
    ensures Damage(attacker, defender, critical) >= 1
    ensures critical ==> Damage(attacker, defender, critical) == BaseDamage(attacker.attack, defender.defense) * 3 / 2
  {
    if critical {
      CriticalIsThreeHalves(BaseDamage(attacker.attack, defender.defense));
    }
  }

  /**
   * Base damages the stat table implies: fighter on fighter 10, bomber on
   * fighter 30, support on fighter or support clamped to 1, support on
   * bomber 5.
   */
  lemma TableDamages()
    ensures BaseDamage(AircraftStats(Fighter).attack, AircraftStats(Fighter).defense) == 10
    ensures BaseDamage(AircraftStats(Bomber).attack, AircraftStats(Fighter).defense) == 30
    ensures BaseDamage(AircraftStats(Support).attack, AircraftStats(Fighter).defense) == 1
    ensures BaseDamage(AircraftStats(Support).attack, AircraftStats(Support).defense) == 1
    ensures BaseDamage(AircraftStats(Support).attack, AircraftStats(Bomber).defense) == 5
  {
  }

  // ---------------------------------------------------------------- selection

  /**
   * SELECT_ACTION does nothing without a selected unit or when that unit
   * has no action points left (page.tsx:79-82).
   */
  lemma SelectActionGuard(s: GameState, kind: ActionKind)
    requires WellFormed(s) && SelectionLive(s)
    requires s.selected.None? || s.units.entries[s.selected.value].stats.actionPoints <= 0
    ensures SelectActionCase(s, kind) == s
  {
  }

  /** `id` names a live unit that the current player may attack from `from` with the given range. */
  ghost predicate Target(s: GameState, id: Id, from: Pos, range: int) {
    id in s.units.entries && s.units.entries[id].owner != s.currentPlayer &&
    Manhattan(s.units.entries[id].position, from) <= AttackRange(s.weather, range)
  }

  /** No two units of `us` share an id. */
  predicate DistinctIds(us: seq<Unit>) {
    forall i, j | 0 <= i < j < |us| :: us[i].id != us[j].id
  }

  /**
   * The attackable list for a unit on `from` holds exactly the live units of
   * the other side within its range, shortened by one under Thunderstorm,
   * each once (page.tsx:111-118).
   */
  lemma AttackableMembers(s: GameState, from: Pos, range: int)
    requires WellFormed(s)
    ensures forall id :: id in Attackable(s, from, range) <==> Target(s, id, from, range)
    ensures Distinct(Attackable(s, from, range))
  {
    forall id
      ensures id in Attackable(s, from, range) <==> Target(s, id, from, range)
    {
      if id in Attackable(s, from, range) {
        AttackableSound(s, from, range, id);
      }
      if Target(s, id, from, range) {
        AttackableComplete(s, from, range, id);
      }
    }
    AttackableDistinct(s, from, range);
  }

  lemma AttackableSound(s: GameState, from: Pos, range: int, id: Id)
    requires WellFormed(s) && id in Attackable(s, from, range)
    ensures Target(s, id, from, range)
  {
    var all := Roster(s.units);
    var hits := InReach(all, s.currentPlayer, from, AttackRange(s.weather, range));
    var ids := Ids(hits);
    var i :| 0 <= i < |ids| && ids[i] == id;
    assert hits[i] in all;
    var j :| 0 <= j < |all| && all[j] == hits[i];
    assert all[j] == s.units.entries[s.units.keys[j]];
  }

  lemma AttackableComplete(s: GameState, from: Pos, range: int, id: Id)
    requires WellFormed(s) && Target(s, id, from, range)
    ensures id in Attackable(s, from, range)
  {
    var all := Roster(s.units);
    var hits := InReach(all, s.currentPlayer, from, AttackRange(s.weather, range));
    var ids := Ids(hits);
    var j :| 0 <= j < |s.units.keys| && s.units.keys[j] == id;
    assert all[j] in hits;
    var i :| 0 <= i < |hits| && hits[i] == all[j];
    assert ids[i] == id;
  }

  lemma AttackableDistinct(s: GameState, from: Pos, range: int)
    requires WellFormed(s)
    ensures Distinct(Attackable(s, from, range))
  {
    var all := Roster(s.units);
    assert DistinctIds(all) by {
      forall i, j | 0 <= i < j < |all|
        ensures all[i].id != all[j].id
      {
        assert all[i].id == s.units.keys[i] && all[j].id == s.units.keys[j];
      }
    }
    InReachKeepsDistinct(all, s.currentPlayer, from, AttackRange(s.weather, range));
  }

  /** `InReach` keeps a subsequence, so distinct ids stay distinct. */
  lemma {:induction false} InReachKeepsDistinct(us: seq<Unit>, current: Player, from: Pos, reach: int)
    requires DistinctIds(us)
    ensures DistinctIds(InReach(us, current, from, reach))
  {
    if us != [] {
      assert DistinctIds(us[1..]);
      InReachKeepsDistinct(us[1..], current, from, reach);
      var rest := InReach(us[1..], current, from, reach);
      forall v | v in rest
        ensures v.id != us[0].id
      {
        var k :| 0 <= k < |us[1..]| && us[1..][k] == v;
        assert us[k + 1] == v;
      }
      var r := [us[0]] + rest;
      forall i, j | 0 <= i < j < |r|
        ensures r[i].id != r[j].id
      {
        if i == 0 {
          assert r[j] == rest[j - 1] && r[j] in rest;
        } else {
          assert r[i] == rest[i - 1] && r[j] == rest[j - 1];
        }
      }
    }
  }

  /**
   * Choosing "attack" lists exactly the live enemy units within the
   * attacker's range, shortened by one under Thunderstorm, each once
   * (page.tsx:111-118).
   */
  lemma AttackableExactly(s: GameState)
    requires WellFormed(s) && SelectionLive(s) && s.selected.Some?
    requires s.units.entries[s.selected.value].stats.actionPoints > 0
    ensures var u := s.units.entries[s.selected.value];
            var r := SelectActionCase(s, AttackAction);
            && r.selectedAction == AttackAction && r.highlights == {} && r.supportable == []
            && (forall id :: id in r.attackable <==> Target(s, id, u.position, u.stats.range))
            && Distinct(r.attackable)
  {
    var u := s.units.entries[s.selected.value];
    AttackableMembers(s, u.position, u.stats.range);
  }

  /**
   * Choosing "move" highlights exactly the cells the unit can reach in at
   * most `speed` steps through empty cells: each of them on the board,
   * empty, not the unit's own cell, and within Manhattan distance `speed`
   * (page.tsx:84-108).
   */
  lemma MoveHighlightsExactly(s: GameState)
    requires WellFormed(s) && SelectionLive(s) && s.selected.Some?
    requires s.units.entries[s.selected.value].stats.actionPoints > 0
    ensures var u := s.units.entries[s.selected.value];
            var r := SelectActionCase(s, MoveAction);
            && r.selectedAction == MoveAction && r.attackable == [] && r.supportable == []
            && (forall p :: p in r.highlights <==> p != u.position && Within(s.grid, u.position, p, u.stats.speed))
            && (forall p | p in r.highlights :: Open(s.grid, p) && Manhattan(u.position, p) <= u.stats.speed)
  {
    var u := s.units.entries[s.selected.value];
    forall p | p in MoveTargets(s.grid, u.position, u.stats.speed)
      ensures Open(s.grid, p) && Manhattan(u.position, p) <= u.stats.speed
    {
      WithinDiamond(s.grid, u.position, p, u.stats.speed);
    }
  }

  // ---------------------------------------------------------------- moving and undoing

  /** MOVE_AIRCRAFT does nothing unless a unit is selected, "move" is chosen and the unit has action points (page.tsx:152-155). */
  lemma MoveGuard(s: GameState, to: Pos)
    requires WellFormed(s) && SelectionLive(s) && InBounds(to)
    requires s.selected.None? || s.selectedAction != MoveAction ||
             s.units.entries[s.selected.value].stats.actionPoints <= 0
    ensures MoveCase(s, to) == s
  {
  }

  /**
   * A move empties the unit's old cell, puts it on the target cell, takes
   * one action point, records the move for UNDO_MOVE and logs it, keeping
   * at most five lines (page.tsx:157-182).
   */
  lemma MoveEffect(s: GameState, to: Pos)
    requires WellFormed(s) && SelectionLive(s) && InBounds(to)
    requires s.selected.Some? && s.selectedAction == MoveAction
    requires s.units.entries[s.selected.value].stats.actionPoints > 0
    ensures var id := s.selected.value;
            var u := s.units.entries[id];
            var r := MoveCase(s, to);
            && At(r.grid, to) == Some(u.id)
            && (to != u.position ==> At(r.grid, u.position) == None)
            && (forall p | InBounds(p) && p != to && p != u.position :: At(r.grid, p) == At(s.grid, p))
            && r.units.entries == s.units.entries[id := Relocated(u, to, u.stats.actionPoints - 1)]
            && r.units.keys == s.units.keys
            && r.lastMove == Some(LastMove(u.id, u.position, to))
            && r.selectedAction == NoAction && r.highlights == {}
            && |r.log| <= LogLimit && r.log[|r.log| - 1] == Moved(u.owner, u.kind, to)
  {
  }

  /** UNDO_MOVE does nothing without a last move, or when its unit no longer stands on the target cell (page.tsx:369-374). */
  lemma UndoGuard(s: GameState)
    requires WellFormed(s) && UndoDefined(s)
    requires s.lastMove.None? || At(s.grid, s.lastMove.value.to) != Some(s.lastMove.value.id)
    ensures UndoCase(s) == s
  {
  }

  /**
   * A move followed by its undo gives back the grid, the roster (positions,
   * action points, key order) and clears `lastMove`; the log comes back
   * whole when it held fewer than five lines before the move
   * (page.tsx:151-184, 368-395).
   */
  lemma MoveThenUndo(s: GameState, to: Pos)
    requires Consistent(s) && InBounds(to) && Open(s.grid, to)
    requires s.selected.Some? && s.selectedAction == MoveAction
    requires s.units.entries[s.selected.value].stats.actionPoints > 0
    ensures WellFormed(MoveCase(s, to)) && UndoDefined(MoveCase(s, to))
    ensures var r := UndoCase(MoveCase(s, to));
            && r.grid == s.grid && r.units == s.units && r.lastMove.None?
            && (|s.log| < LogLimit ==> r.log == s.log)
  {
    var id := s.selected.value;
    assert s.units.entries[id].id == id;
    assert At(s.grid, s.units.entries[id].position) == Some(id);
    MoveShape(s, to);
    MoveThenUndoOnShape(s, to);
  }

  /** The round trip on a well-formed state whose selected unit stands on its own cell. */
  lemma MoveThenUndoOnShape(s: GameState, to: Pos)
    requires WellFormed(s) && SelectionLive(s) && InBounds(to) && Open(s.grid, to)
    requires s.selected.Some? && s.selectedAction == MoveAction
    requires s.units.entries[s.selected.value].stats.actionPoints > 0
    requires s.units.entries[s.selected.value].id == s.selected.value
    requires At(s.grid, s.units.entries[s.selected.value].position) == Some(s.selected.value)
    ensures var r := UndoCase(MoveCase(s, to));
            && r.grid == s.grid && r.units == s.units && r.lastMove.None?
            && (|s.log| < LogLimit ==> r.log == s.log)
  {
    UndoRestoresGrid(s, to);
    UndoRestoresUnits(s, to);
    UndoRestoresLog(s, to);
  }

  lemma UndoRestoresGrid(s: GameState, to: Pos)
    requires WellFormed(s) && SelectionLive(s) && InBounds(to) && Open(s.grid, to)
    requires s.selected.Some? && s.selectedAction == MoveAction
    requires s.units.entries[s.selected.value].stats.actionPoints > 0
    requires s.units.entries[s.selected.value].id == s.selected.value
    requires At(s.grid, s.units.entries[s.selected.value].position) == Some(s.selected.value)
    ensures WellFormed(MoveCase(s, to)) && UndoDefined(MoveCase(s, to))
    ensures UndoCase(MoveCase(s, to)).grid == s.grid
  {
    MovedState(s, to);
    var id := s.selected.value;
    var u := s.units.entries[id];
    UndoTakesBack(MoveCase(s, to));
    GridRoundTrip(s.grid, u.position, to, id);
  }

  lemma UndoRestoresUnits(s: GameState, to: Pos)
    requires WellFormed(s) && SelectionLive(s) && InBounds(to) && Open(s.grid, to)
    requires s.selected.Some? && s.selectedAction == MoveAction
    requires s.units.entries[s.selected.value].stats.actionPoints > 0
    requires s.units.entries[s.selected.value].id == s.selected.value
    requires At(s.grid, s.units.entries[s.selected.value].position) == Some(s.selected.value)
    ensures WellFormed(MoveCase(s, to)) && UndoDefined(MoveCase(s, to))
    ensures UndoCase(MoveCase(s, to)).units == s.units
  {
    MovedState(s, to);
    var id := s.selected.value;
    UnitsPutBack(s.units, MoveCase(s, to), id, to);
  }

  /** What a move writes, as UNDO_MOVE reads it back. */
  lemma MovedState(s: GameState, to: Pos)
    requires WellFormed(s) && SelectionLive(s) && InBounds(to) && Open(s.grid, to)
    requires s.selected.Some? && s.selectedAction == MoveAction
    requires s.units.entries[s.selected.value].stats.actionPoints > 0
    requires s.units.entries[s.selected.value].id == s.selected.value
    ensures var id := s.selected.value;
            var u := s.units.entries[id];
            var m := MoveCase(s, to);
            && WellFormed(m) && UndoDefined(m)
            && m.grid == Place(Place(s.grid, u.position, None), to, Some(id))
            && m.units == Put(s.units, id, Relocated(u, to, u.stats.actionPoints - 1))
            && m.lastMove == Some(LastMove(id, u.position, to))
            && m.log == Append(s.log, Moved(u.owner, u.kind, to))
            && At(m.grid, to) == Some(id)
  {
    var id := s.selected.value;
    var u := s.units.entries[id];
    var m := MoveCase(s, to);
    assert m.grid == Place(Place(s.grid, u.position, None), to, Some(id));
    assert m.units == Put(s.units, id, Relocated(u, to, u.stats.actionPoints - 1));
    MoveShape(s, to);
  }

  /** UNDO_MOVE after a move of `id` to `to` writes the roster from before the move back. */
  lemma UnitsPutBack(units: Record<Id, Unit>, m: GameState, id: Id, to: Pos)
    requires id in units.entries
    requires WellFormed(m) && UndoDefined(m)
    requires var u := units.entries[id];
             && m.units == Put(units, id, Relocated(u, to, u.stats.actionPoints - 1))
             && m.lastMove == Some(LastMove(id, u.position, to))
    requires At(m.grid, to) == Some(id)
    ensures UndoCase(m).units == units
  {
    var u := units.entries[id];
    var moved := Relocated(u, to, u.stats.actionPoints - 1);
    UndoTakesBack(m);
    assert Relocated(moved, u.position, u.stats.actionPoints) == u;
    PutBack(units, id, moved);
  }

  lemma UndoRestoresLog(s: GameState, to: Pos)
    requires WellFormed(s) && SelectionLive(s) && InBounds(to) && Open(s.grid, to)
    requires s.selected.Some? && s.selectedAction == MoveAction
    requires s.units.entries[s.selected.value].stats.actionPoints > 0
    requires s.units.entries[s.selected.value].id == s.selected.value
    requires At(s.grid, s.units.entries[s.selected.value].position) == Some(s.selected.value)
    ensures WellFormed(MoveCase(s, to)) && UndoDefined(MoveCase(s, to))
    ensures UndoCase(MoveCase(s, to)).lastMove.None?
    ensures |s.log| < LogLimit ==> UndoCase(MoveCase(s, to)).log == s.log
  {
    MovedState(s, to);
    var u := s.units.entries[s.selected.value];
    LogTakenBack(MoveCase(s, to), s.log, Moved(u.owner, u.kind, to));
  }

  /** UNDO_MOVE drops the line the move appended and forgets the move. */
  lemma LogTakenBack(m: GameState, log: seq<LogEntry>, line: LogEntry)
    requires WellFormed(m) && UndoDefined(m) && m.lastMove.Some?
    requires At(m.grid, m.lastMove.value.to) == Some(m.lastMove.value.id)
    requires m.log == Append(log, line)
    ensures UndoCase(m).lastMove.None?
    ensures |log| < LogLimit ==> UndoCase(m).log == log
    ensures |log| == LogLimit ==> UndoCase(m).log == log[1..]
  {
    if |log| < LogLimit {
      assert m.log == log + [line];
    } else if |log| == LogLimit {
      assert m.log == (log + [line])[1..];
      assert m.log == log[1..] + [line];
    }
  }

  /** A move keeps the state well formed and leaves a last move UNDO_MOVE can look up. */
  lemma MoveShape(s: GameState, to: Pos)
    requires WellFormed(s) && SelectionLive(s) && InBounds(to)
    requires s.selected.Some? && s.selectedAction == MoveAction
    requires s.units.entries[s.selected.value].stats.actionPoints > 0
    requires s.units.entries[s.selected.value].id == s.selected.value
    ensures WellFormed(MoveCase(s, to)) && SelectionLive(MoveCase(s, to)) && UndoDefined(MoveCase(s, to))
  {
    var id := s.selected.value;
    var m := MoveCase(s, to);
    assert m.units == Put(s.units, id, Relocated(s.units.entries[id], to, s.units.entries[id].stats.actionPoints - 1));
    assert m.lastMove == Some(LastMove(id, s.units.entries[id].position, to));
  }

  /** What UNDO_MOVE writes when its unit still stands where it went. */
  lemma UndoTakesBack(m: GameState)
    requires WellFormed(m) && UndoDefined(m) && m.lastMove.Some?
    requires At(m.grid, m.lastMove.value.to) == Some(m.lastMove.value.id)
    ensures var mv := m.lastMove.value;
            var u := m.units.entries[mv.id];
            && UndoCase(m).units == Put(m.units, mv.id, Relocated(u, mv.from, u.stats.actionPoints + 1))
            && UndoCase(m).grid == Place(Place(m.grid, mv.to, None), mv.from, Some(mv.id))
  {
  }

  /** Emptying `from` and filling `to`, then the reverse, leaves the grid as it was. */
  lemma GridRoundTrip(g: Grid, from: Pos, to: Pos, id: Id)
    requires Shaped(g) && InBounds(from) && InBounds(to) && from != to
    requires At(g, from) == Some(id) && At(g, to) == None
    ensures Place(Place(Place(Place(g, from, None), to, Some(id)), to, None), from, Some(id)) == g
  {
    var r := Place(Place(Place(Place(g, from, None), to, Some(id)), to, None), from, Some(id));
    forall y | 0 <= y < Height
      ensures r[y] == g[y]
    {
      forall x | 0 <= x < Width
        ensures r[y][x] == g[y][x]
      {
        assert At(r, Pos(x, y)) == At(g, Pos(x, y));
      }
    }
  }

  /** With five log lines, the round trip loses the oldest one: the trim at page.tsx:182 happens before the undo drops a line. */
  lemma MoveThenUndoForgetsOldestLine(s: GameState, to: Pos)
    requires Consistent(s) && InBounds(to) && Open(s.grid, to)
    requires s.selected.Some? && s.selectedAction == MoveAction
    requires s.units.entries[s.selected.value].stats.actionPoints > 0
    requires |s.log| == LogLimit
    ensures WellFormed(MoveCase(s, to)) && UndoDefined(MoveCase(s, to))
    ensures UndoCase(MoveCase(s, to)).log == s.log[1..]
  {
    var u := s.units.entries[s.selected.value];
    assert u.id == s.selected.value;
    MovedState(s, to);
    LogTakenBack(MoveCase(s, to), s.log, Moved(u.owner, u.kind, to));
  }

  // ---------------------------------------------------------------- consistency of moves

  /** A move to an open cell keeps the state consistent. */
  lemma MoveKeepsConsistent(s: GameState, to: Pos)
    requires Consistent(s) && InBounds(to) && Open(s.grid, to)
    ensures Consistent(MoveCase(s, to))
  {
    if s.selected.Some? && s.selectedAction == MoveAction && s.units.entries[s.selected.value].stats.actionPoints > 0 {
      MoveKeepsRosters(s, to);
      MoveKeepsLastMove(s, to);
    }
  }

  lemma MoveKeepsRosters(s: GameState, to: Pos)
    requires Consistent(s) && InBounds(to) && Open(s.grid, to)
    requires s.selected.Some? && s.selectedAction == MoveAction && s.units.entries[s.selected.value].stats.actionPoints > 0
    ensures var r := MoveCase(s, to); Rosters(r.grid, r.units, r.destroyed)
  {
    var id := s.selected.value;
    var u := s.units.entries[id];
    assert u.id == id;
    var moved := Relocated(u, to, u.stats.actionPoints - 1);
    var r := MoveCase(s, to);
    assert r.grid == Place(Place(s.grid, u.position, None), to, Some(id));
    assert r.units == Put(s.units, id, moved);
    RostersMove(s.grid, s.units, s.destroyed, id, u.position, to, moved);
  }

  lemma MoveKeepsLastMove(s: GameState, to: Pos)
    requires Consistent(s) && InBounds(to) && Open(s.grid, to)
    requires s.selected.Some? && s.selectedAction == MoveAction && s.units.entries[s.selected.value].stats.actionPoints > 0
    ensures var r := MoveCase(s, to); Shaped(r.grid) && LastMoveOk(r.lastMove, r.grid, r.units)
  {
    var id := s.selected.value;
    var u := s.units.entries[id];
    assert u.id == id;
    var g := Place(Place(s.grid, u.position, None), to, Some(id));
    var r := MoveCase(s, to);
    assert r.grid == g;
    assert At(s.grid, u.position) == Some(id);
    assert At(g, u.position) == None;
  }

  // ---------------------------------------------------------------- consistency of selection and undo

  /** Selecting one of the current player's units keeps the state consistent. */
  lemma SelectAircraftKeepsConsistent(s: GameState, id: Id)
    requires Consistent(s) && id in s.units.entries
    ensures Consistent(SelectAircraftCase(s, id))
  {
  }

  /** Every cell SELECT_ACTION highlights is on the board. */
  lemma SelectActionHighlightsOnBoard(s: GameState, kind: ActionKind)
    requires WellFormed(s) && SelectionLive(s) && forall p | p in s.highlights :: InBounds(p)
    ensures forall p | p in SelectActionCase(s, kind).highlights :: InBounds(p)
  {
    var r := SelectActionCase(s, kind);
    if r.highlights != s.highlights {
      forall p | p in r.highlights
        ensures InBounds(p)
      {
        var u := s.units.entries[s.selected.value];
        if kind == MoveAction {
          assert p != u.position && Within(s.grid, u.position, p, u.stats.speed);
          assert Open(s.grid, p);
        } else {
          assert Open(s.grid, p);
        }
      }
    }
  }

  /** Choosing an action changes only the selected action and the highlights, so the state stays consistent. */
  lemma SelectActionKeepsConsistent(s: GameState, kind: ActionKind)
    requires Consistent(s)
    ensures Consistent(SelectActionCase(s, kind))
  {
    SelectActionHighlightsOnBoard(s, kind);
    SelectActionKeepsBoard(s, kind);
    ConsistentAcross(s, SelectActionCase(s, kind));
  }

  /** Choosing an action leaves the board, both rosters, the selection, the turn and the last move alone. */
  lemma SelectActionKeepsBoard(s: GameState, kind: ActionKind)
    requires WellFormed(s) && SelectionLive(s)
    ensures var r := SelectActionCase(s, kind);
            r == s.(selectedAction := r.selectedAction, highlights := r.highlights, attackable := r.attackable,
                    supportable := r.supportable)
  {
  }

  /** Consistency does not depend on the chosen action or the attack and support lists, and only on in-board highlights. */
  lemma ConsistentAcross(s: GameState, r: GameState)
    requires Consistent(s) && forall p | p in r.highlights :: InBounds(p)
    requires r == s.(selectedAction := r.selectedAction, highlights := r.highlights, attackable := r.attackable,
                     supportable := r.supportable)
    ensures Consistent(r)
  {
  }

  /** A consistent state can always be undone: the lookups of UNDO_MOVE succeed. */
  lemma ConsistentUndoDefined(s: GameState)
    requires Consistent(s)
    ensures WellFormed(s) && UndoDefined(s)
  {
  }

  /** Undoing the last move keeps the state consistent. */
  lemma UndoKeepsConsistent(s: GameState)
    requires Consistent(s)
    ensures UndoDefined(s) && Consistent(UndoCase(s))
  {
    ConsistentUndoDefined(s);
    if s.lastMove.Some? && At(s.grid, s.lastMove.value.to) == Some(s.lastMove.value.id) {
      UndoKeepsRosters(s);
      UndoTakesBack(s);
      var r := UndoCase(s);
      assert r.selected == s.selected && r.currentPlayer == s.currentPlayer;
      assert r.units.entries[s.lastMove.value.id].owner == s.units.entries[s.lastMove.value.id].owner;
    }
  }

  lemma UndoKeepsRosters(s: GameState)
    requires Rosters(s.grid, s.units, s.destroyed) && LastMoveOk(s.lastMove, s.grid, s.units)
    requires s.lastMove.Some? && At(s.grid, s.lastMove.value.to) == Some(s.lastMove.value.id)
    ensures var m := s.lastMove.value;
            var u := s.units.entries[m.id];
            Rosters(Place(Place(s.grid, m.to, None), m.from, Some(m.id)),
                    Put(s.units, m.id, Relocated(u, m.from, u.stats.actionPoints + 1)), s.destroyed)
  {
    var m := s.lastMove.value;
    var u := s.units.entries[m.id];
    UndoPremises(s);
    RostersMove(s.grid, s.units, s.destroyed, m.id, m.to, m.from, Relocated(u, m.from, u.stats.actionPoints + 1));
  }

  /** While the last moved unit stands where it went, its origin is open and it may take back an action point. */
  lemma UndoPremises(s: GameState)
    requires Rosters(s.grid, s.units, s.destroyed) && LastMoveOk(s.lastMove, s.grid, s.units)
    requires s.lastMove.Some? && At(s.grid, s.lastMove.value.to) == Some(s.lastMove.value.id)
    ensures var m := s.lastMove.value;
            && m.id in s.units.entries
            && var u := s.units.entries[m.id];
            && u.id == m.id && u.position == m.to && Open(s.grid, m.from)
            && UnitOk(Relocated(u, m.from, u.stats.actionPoints + 1))
  {
  }
}
