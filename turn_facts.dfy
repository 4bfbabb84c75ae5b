/**
 * END_TURN, TICK_TIMER, SET_GAME_OVER and START_NEW_WAVE
 * (src/app/game/page.tsx:397-498 and :524-574): the change of turn and
 * what it refreshes, the fog of war it recomputes, the timer that ends a
 * turn by itself, and the summary written when the game ends.
 */
module TurnFacts {
  import opened Common
  import opened Records
  import opened Board
  import opened Model
  import opened Vision
  import opened Reducer
  import opened ReducerFacts

  // ---------------------------------------------------------------- one unit at the change of turn

  /**
   * At the change of turn (page.tsx:403-424) a unit of the side about to
   * play gets all its action points back and 10 energy up to its maximum;
   * a unit of the side that just played has its cooldown ticked down, not
   * below zero, and loses Empowered. Nothing else about it changes, and
   * its stats stay in range.
   */
  lemma RefreshEffect(u: Unit, outgoing: Player)
    ensures var r := Refresh(u, outgoing);
            && r.id == u.id && r.owner == u.owner && r.kind == u.kind && r.position == u.position
            && r.stats.hp == u.stats.hp && r.stats.maxHp == u.stats.maxHp && r.stats.range == u.stats.range
            && (UnitOk(u) ==> UnitOk(r))
            && (u.owner != outgoing ==>
                  && r.stats.actionPoints == r.stats.maxActionPoints
                  && r.stats.energy == Min(u.stats.maxEnergy, u.stats.energy + 10)
                  && r.cooldown == u.cooldown && r.statuses == u.statuses)
            && (u.owner == outgoing ==>
                  && r.stats == u.stats
                  && r.cooldown == Max(0, u.cooldown - 1) && r.cooldown >= 0
                  && Empowered !in r.statuses
                  && (forall t :: t in r.statuses <==> t in u.statuses && t != Empowered))
  {
  }

  /** Refreshing every live unit keeps the rosters and the grid in step: no unit moves, and every unit stays in range. */
  lemma RostersRefreshAll(g: Grid, units: Record<Id, Unit>, destroyed: Record<Id, Unit>, outgoing: Player)
    requires Rosters(g, units, destroyed)
    ensures Rosters(g, RefreshAll(units, outgoing), destroyed)
  {
    var r := RefreshAll(units, outgoing);
    forall k | k in units.entries
      ensures r.entries[k].id == k && r.entries[k].position == units.entries[k].position && UnitOk(r.entries[k])
    {
      RefreshEffect(units.entries[k], outgoing);
    }
    assert OnBoard(r.entries);
    forall p | InBounds(p) && At(g, p).Some?
      ensures At(g, p).value in r.entries && r.entries[At(g, p).value].position == p
    {
    }
  }

  // ---------------------------------------------------------------- END_TURN

  /**
   * END_TURN (page.tsx:397-467) hands the turn to the other side, counts a
   * new turn only when the human player is next, refreshes every live
   * unit in place, clears the selection and the move that could be taken
   * back, restarts the timer and logs the new turn. Nothing else changes.
   */
  lemma EndTurnEffect(s: GameState, env: Env)
    requires Valid(s.units)
    ensures var r := EndTurnCase(s, env);
            var next := Other(s.currentPlayer);
            && r.currentPlayer == next
            && r.turnNumber == (if next == Human then s.turnNumber + 1 else s.turnNumber)
            && r.units.keys == s.units.keys && r.units.entries.Keys == s.units.entries.Keys
            && (forall k | k in s.units.entries :: r.units.entries[k] == Refresh(s.units.entries[k], s.currentPlayer))
            && r.selected == None && r.selectedAction == NoAction && r.highlights == {}
            && r.attackable == [] && r.supportable == [] && r.lastMove == None
            && r.turnTimeRemaining == env.turnTimeLimit
            && r.log == Append(s.log, TurnBegan(r.turnNumber, next))
            && r.visible.Some?
            && r.grid == s.grid && r.destroyed == s.destroyed && r.phase == s.phase
            && r.winner == s.winner && r.mode == s.mode && r.waveNumber == s.waveNumber
            && r.damageDealt == s.damageDealt && r.damageTaken == s.damageTaken
  {
  }

  /** Some live unit of the human player in `units` sees `p`. */
  ghost predicate SeenBy(units: Record<Id, Unit>, p: Pos) {
    exists k | k in units.entries ::
      units.entries[k].owner == Human && Manhattan(units.entries[k].position, p) <= VisionRange(units.entries[k])
  }

  /**
   * The visibility grid END_TURN stores (page.tsx:426-450): every cell when
   * the opponent is next; otherwise exactly the cells within distance
   * `range + 2` of some live unit of the human player.
   */
  lemma EndTurnVisibility(s: GameState, env: Env)
    requires Valid(s.units)
    ensures var r := EndTurnCase(s, env);
            && r.visible.Some? && Shaped(r.visible.value)
            && forall p | InBounds(p) :: At(r.visible.value, p) <==> (r.currentPlayer == Opponent || SeenBy(s.units, p))
  {
    forall p | InBounds(p)
      ensures Seen(UnitsOf(RefreshAll(s.units, s.currentPlayer), Human), p) <==> SeenBy(s.units, p)
    {
      SeenAfterRefresh(s.units, s.currentPlayer, p);
      SeenBeforeRefresh(s.units, s.currentPlayer, p);
    }
  }

  lemma SeenAfterRefresh(units: Record<Id, Unit>, outgoing: Player, p: Pos)
    requires Valid(units)
    ensures Seen(UnitsOf(RefreshAll(units, outgoing), Human), p) ==> SeenBy(units, p)
  {
    var players := UnitsOf(RefreshAll(units, outgoing), Human);
    if Seen(players, p) {
      SeenThroughRefreshed(units, outgoing, players, p);
    }
  }

  /** Whatever list of refreshed human units sees `p`, some unit of the roster saw it before the refresh. */
  lemma SeenThroughRefreshed(units: Record<Id, Unit>, outgoing: Player, players: seq<Unit>, p: Pos)
    requires forall u | u in players :: u in RefreshAll(units, outgoing).entries.Values && u.owner == Human
    requires Seen(players, p)
    ensures SeenBy(units, p)
  {
    var i :| 0 <= i < |players| && Manhattan(players[i].position, p) <= VisionRange(players[i]);
    SeenByRefreshed(units, outgoing, players[i], p);
  }

  /** A human unit of the refreshed roster that sees `p` is the refresh of a unit that saw it already. */
  lemma SeenByRefreshed(units: Record<Id, Unit>, outgoing: Player, u: Unit, p: Pos)
    requires u in RefreshAll(units, outgoing).entries.Values && u.owner == Human
    requires Manhattan(u.position, p) <= VisionRange(u)
    ensures SeenBy(units, p)
  {
    var t := RefreshAll(units, outgoing);
    var k :| k in t.entries && t.entries[k] == u;
    RefreshEffect(units.entries[k], outgoing);
    assert units.entries[k].owner == Human && Manhattan(units.entries[k].position, p) <= VisionRange(units.entries[k]);
  }

  lemma SeenBeforeRefresh(units: Record<Id, Unit>, outgoing: Player, p: Pos)
    requires Valid(units)
    ensures SeenBy(units, p) ==> Seen(UnitsOf(RefreshAll(units, outgoing), Human), p)
  {
    var t := RefreshAll(units, outgoing);
    var players := UnitsOf(t, Human);
    if SeenBy(units, p) {
      var k :| k in units.entries && units.entries[k].owner == Human &&
               Manhattan(units.entries[k].position, p) <= VisionRange(units.entries[k]);
      RefreshEffect(units.entries[k], outgoing);
      assert t.entries[k] in t.entries.Values;
      assert t.entries[k] in players;
      var i :| 0 <= i < |players| && players[i] == t.entries[k];
    }
  }

  /**
   * Two END_TURNs make a round: the same side plays again, one turn
   * later, and in between every live unit has had its cooldown ticked
   * down exactly once and lost Empowered, while the side that plays again
   * has all its action points.
   */
  lemma RoundOfTurns(s: GameState, env: Env)
    requires Valid(s.units)
    ensures Valid(EndTurnCase(s, env).units)
    ensures var r := EndTurnCase(EndTurnCase(s, env), env);
            && r.currentPlayer == s.currentPlayer
            && r.turnNumber == s.turnNumber + 1
            && r.units.keys == s.units.keys
            && forall k | k in s.units.entries ::
                 var u, v := s.units.entries[k], r.units.entries[k];
                 && v.cooldown == Max(0, u.cooldown - 1)
                 && Empowered !in v.statuses
                 && v.position == u.position && v.stats.hp == u.stats.hp
                 && (u.owner == s.currentPlayer ==> v.stats.actionPoints == v.stats.maxActionPoints)
  {
    var m := EndTurnCase(s, env);
    forall k | k in s.units.entries
      ensures m.units.entries[k] == Refresh(s.units.entries[k], s.currentPlayer)
    {
    }
    RefreshAllTwice(s.units, s.currentPlayer);
  }

  /** Both sides' refreshes in turn, on a whole roster. */
  lemma RefreshAllTwice(units: Record<Id, Unit>, first: Player)
    ensures var r := RefreshAll(RefreshAll(units, first), Other(first));
            && r.keys == units.keys
            && forall k | k in units.entries ::
                 var u, v := units.entries[k], r.entries[k];
                 && v.cooldown == Max(0, u.cooldown - 1)
                 && Empowered !in v.statuses
                 && v.position == u.position && v.stats.hp == u.stats.hp
                 && (u.owner == first ==> v.stats.actionPoints == v.stats.maxActionPoints)
  {
    var m := RefreshAll(units, first);
    forall k | k in units.entries
      ensures m.entries[k] == Refresh(units.entries[k], first)
    {
    }
    forall k | k in units.entries
      ensures var u, v := units.entries[k], Refresh(Refresh(units.entries[k], first), Other(first));
              && v.cooldown == Max(0, u.cooldown - 1)
              && Empowered !in v.statuses
              && v.position == u.position && v.stats.hp == u.stats.hp
              && (u.owner == first ==> v.stats.actionPoints == v.stats.maxActionPoints)
    {
      RefreshTwice(units.entries[k], first);
    }
  }

  /** A unit refreshed once as the side that stops and once as the side that starts, in either order. */
  lemma RefreshTwice(u: Unit, first: Player)
    ensures var v := Refresh(Refresh(u, first), Other(first));
            && v.cooldown == Max(0, u.cooldown - 1)
            && Empowered !in v.statuses
            && v.position == u.position && v.stats.hp == u.stats.hp
            && (u.owner == first ==> v.stats.actionPoints == v.stats.maxActionPoints)
  {
    var m := Refresh(u, first);
    RefreshEffect(u, first);
    RefreshEffect(m, Other(first));
  }

  /** END_TURN keeps a consistent state consistent. */
  lemma EndTurnKeepsConsistent(s: GameState, env: Env)
    requires Consistent(s)
    ensures Consistent(EndTurnCase(s, env))
  {
    RostersRefreshAll(s.grid, s.units, s.destroyed, s.currentPlayer);
  }

  // ---------------------------------------------------------------- TICK_TIMER

  /**
   * When the last second runs out (page.tsx:527-557), TICK_TIMER does what
   * END_TURN does, except that it logs that the turn ended automatically
   * and leaves the visibility grid as it was.
   */
  lemma TickExpires(s: GameState, env: Env)
    requires Valid(s.units)
    requires s.phase == Playing && s.turnTimeRemaining - 1 <= 0
    ensures TickTimerCase(s, env) ==
            EndTurnCase(s, env).(log := Append(s.log, TurnAutoEnded(s.currentPlayer, Other(s.currentPlayer))),
                                 visible := s.visible)
  {
  }

  /** Otherwise TICK_TIMER only counts down, and outside play it does nothing (page.tsx:525-560). */
  lemma TickCountsDown(s: GameState, env: Env)
    ensures s.phase != Playing ==> TickTimerCase(s, env) == s
    ensures s.phase == Playing && s.turnTimeRemaining > 1 ==>
              var r := TickTimerCase(s, env);
              r.turnTimeRemaining == s.turnTimeRemaining - 1 && r.turnTimeRemaining > 0 &&
              r.(turnTimeRemaining := s.turnTimeRemaining) == s
  {
  }

  /** TICK_TIMER keeps a consistent state consistent. */
  lemma TickKeepsConsistent(s: GameState, env: Env)
    requires Consistent(s)
    ensures Consistent(TickTimerCase(s, env))
  {
    if s.phase == Playing && s.turnTimeRemaining - 1 <= 0 {
      EndTurnKeepsConsistent(s, env);
      TickExpires(s, env);
    }
  }

  // ---------------------------------------------------------------- SET_GAME_OVER

  /** `OwnedBy` keeps a subsequence, so distinct ids stay distinct. */
  lemma {:induction false} OwnedByKeepsDistinct(us: seq<Unit>, who: Player)
    requires DistinctIds(us)
    ensures DistinctIds(OwnedBy(us, who))
  {
    if us != [] {
      assert DistinctIds(us[1..]);
      OwnedByKeepsDistinct(us[1..], who);
      var rest := OwnedBy(us[1..], who);
      forall v | v in rest
        ensures v.id != us[0].id
      {
        var k :| 0 <= k < |us[1..]| && us[1..][k] == v;
        assert us[k + 1] == v;
      }
      if us[0].owner == who {
        var r := [us[0]] + rest;
        forall i, j | 0 <= i < j < |r|
          ensures r[i].id != r[j].id
        {
          if i == 0 {
            assert r[j] == rest[j - 1] && r[j] in rest;
          } else {
            assert r[i] == rest[i - 1] && r[j] == rest[j - 1];
          }
        }
      }
    }
  }

  /** The units of one side of a roster keyed by id have distinct ids. */
  lemma UnitsOfDistinct(r: Record<Id, Unit>, who: Player)
    requires Valid(r) && KeyedById(r)
    ensures DistinctIds(UnitsOf(r, who))
  {
    var all := Roster(r);
    forall i, j | 0 <= i < j < |all|
      ensures all[i].id != all[j].id
    {
      assert all[i].id == r.keys[i] && all[j].id == r.keys[j];
    }
    OwnedByKeepsDistinct(all, who);
  }

  /**
   * `xpGained` (page.tsx:476-482) records, for each player unit with an
   * initial snapshot, the experience it gained since the game began, and
   * for nobody else.
   */
  lemma {:induction false} XpGainedValues(players: seq<Unit>, initial: map<Id, Unit>)
    requires DistinctIds(players)
    ensures var m := XpGained(players, initial);
            forall i | 0 <= i < |players| && players[i].id in initial ::
              players[i].id in m && m[players[i].id] == players[i].stats.xp - initial[players[i].id].stats.xp
  {
    if players != [] {
      var n := |players| - 1;
      var last := players[n];
      var front := players[..n];
      var rest := XpGained(front, initial);
      assert DistinctIds(front) by {
        forall i, j | 0 <= i < j < |front|
          ensures front[i].id != front[j].id
        {
          assert front[i] == players[i] && front[j] == players[j];
        }
      }
      XpGainedValues(front, initial);
      var m := XpGained(players, initial);
      assert m == if last.id in initial then rest[last.id := last.stats.xp - initial[last.id].stats.xp] else rest;
      forall i | 0 <= i < |players| && players[i].id in initial
        ensures players[i].id in m && m[players[i].id] == players[i].stats.xp - initial[players[i].id].stats.xp
      {
        if i < n {
          assert front[i] == players[i];
          assert players[i].id != last.id;
        }
      }
    }
  }

  /** The experience table SET_GAME_OVER builds from a roster keyed by id: one entry per live player unit with a snapshot. */
  lemma XpGainedOfRoster(units: Record<Id, Unit>, initial: map<Id, Unit>)
    requires Valid(units) && KeyedById(units)
    ensures var m := XpGained(UnitsOf(units, Human), initial);
            && (forall k :: k in m <==> k in initial && k in units.entries && units.entries[k].owner == Human)
            && (forall k | k in m :: m[k] == units.entries[k].stats.xp - initial[k].stats.xp)
  {
    XpGainedSound(units, initial);
    XpGainedComplete(units, initial);
  }

  lemma XpGainedSound(units: Record<Id, Unit>, initial: map<Id, Unit>)
    requires Valid(units) && KeyedById(units)
    ensures var m := XpGained(UnitsOf(units, Human), initial);
            forall k | k in m :: k in units.entries && units.entries[k].owner == Human &&
                                 m[k] == units.entries[k].stats.xp - initial[k].stats.xp
  {
    UnitsOfDistinct(units, Human);
    XpOfPlayers(units, initial, UnitsOf(units, Human));
  }

  /** The table built from any list of live player units with distinct ids holds their gains and nothing else. */
  lemma XpOfPlayers(units: Record<Id, Unit>, initial: map<Id, Unit>, players: seq<Unit>)
    requires KeyedById(units) && DistinctIds(players)
    requires forall u | u in players :: u in units.entries.Values && u.owner == Human
    ensures var m := XpGained(players, initial);
            forall k | k in m :: k in units.entries && units.entries[k].owner == Human &&
                                 m[k] == units.entries[k].stats.xp - initial[k].stats.xp
  {
    var m := XpGained(players, initial);
    XpGainedValues(players, initial);
    forall k | k in m
      ensures k in units.entries && units.entries[k].owner == Human
      ensures m[k] == units.entries[k].stats.xp - initial[k].stats.xp
    {
      var i :| 0 <= i < |players| && players[i].id == k;
      assert players[i] in players;
      var j :| j in units.entries && units.entries[j] == players[i];
    }
  }

  lemma XpGainedComplete(units: Record<Id, Unit>, initial: map<Id, Unit>)
    requires Valid(units) && KeyedById(units)
    ensures var m := XpGained(UnitsOf(units, Human), initial);
            forall k | k in initial && k in units.entries && units.entries[k].owner == Human :: k in m
  {
    var players := UnitsOf(units, Human);
    forall k | k in initial && k in units.entries && units.entries[k].owner == Human
      ensures k in XpGained(players, initial)
    {
      assert units.entries[k] in units.entries.Values;
      assert units.entries[k] in players;
      var i :| 0 <= i < |players| && players[i] == units.entries[k];
      assert players[i].id == k;
    }
  }

  /**
   * SET_GAME_OVER (page.tsx:469-498) ends the game with the given winner
   * and a summary of the battle: the surviving player units, the losses
   * on each side, each player unit's experience gained, the turn count and
   * the damage totals; the last log line says who won (and, in survival
   * mode, how many waves the player lasted). The board is left as it is.
   */
  lemma SetGameOverEffect(s: GameState, winner: Option<Player>)
    requires WellFormed(s)
    ensures var r := SetGameOverCase(s, winner);
            var b := r.summary.value;
            && r.phase == GameOver && r.winner == winner && r.summary.Some?
            && (forall u :: u in b.playerUnits <==> u in s.units.entries.Values && u.owner == Human)
            && (forall u :: u in UnitsOf(s.destroyed, Opponent) <==> u in s.destroyed.entries.Values && u.owner == Opponent)
            && b.opponentDestroyed == |UnitsOf(s.destroyed, Opponent)|
            && b.playerLost == |UnitsOf(s.destroyed, Human)|
            && (forall k :: k in b.xpGained <==> k in s.initialUnits && k in s.units.entries && s.units.entries[k].owner == Human)
            && (forall k | k in b.xpGained :: b.xpGained[k] == s.units.entries[k].stats.xp - s.initialUnits[k].stats.xp)
            && b.totalTurns == s.turnNumber && b.totalDamageDealt == s.damageDealt && b.totalDamageTaken == s.damageTaken
            && r.log[|r.log| - 1] ==
                 (if winner == Some(Human) then (if s.mode == Survival then SurvivedWaves(s.waveNumber) else Victory) else Defeat)
            && r.grid == s.grid && r.units == s.units && r.destroyed == s.destroyed && r.currentPlayer == s.currentPlayer
  {
    XpGainedOfRoster(s.units, s.initialUnits);
  }

  /** SET_GAME_OVER keeps a consistent state consistent. */
  lemma SetGameOverKeepsConsistent(s: GameState, winner: Option<Player>)
    requires Consistent(s)
    ensures Consistent(SetGameOverCase(s, winner))
  {
  }

  // ---------------------------------------------------------------- START_NEW_WAVE

  /**
   * `(waveNumber || 1) + 1` (page.tsx:564): an unset wave counts as the
   * first, so the next wave is always at least the second and otherwise
   * the one after.
   */
  lemma NextWaveValues(wave: int)
    ensures NextWave(wave) >= 2 || (wave < 0 && NextWave(wave) == wave + 1)
    ensures wave == 0 ==> NextWave(wave) == 2
    ensures wave != 0 ==> NextWave(wave) == wave + 1
  {
  }

  /** START_NEW_WAVE changes nothing outside survival mode, and in it moves to the next wave and logs it (page.tsx:562-574). */
  lemma StartNewWaveEffect(s: GameState, env: Env)
    ensures s.mode != Survival ==> StartNewWaveCase(s, env) == s
    ensures s.mode == Survival ==>
              var r := StartNewWaveCase(s, env);
              && r.waveNumber == NextWave(s.waveNumber)
              && r.log[|r.log| - 1] == WaveStarted(r.waveNumber)
              && r.currentPlayer == s.currentPlayer && r.destroyed == s.destroyed && r.phase == s.phase
  {
  }
}
