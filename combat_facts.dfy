/**
 * ATTACK_AIRCRAFT and SPECIAL_AIRCRAFT (src/app/game/page.tsx:186-366):
 * what an attack costs and does on each of its three paths (dodged, hit,
 * destroyed), what a revival does, and that both keep a consistent state
 * consistent when the target is one the user interface can pick.
 */
module CombatFacts {
  import opened Common
  import opened Records
  import opened Constants
  import opened Board
  import opened Model
  import opened Reducer
  import opened ReducerFacts

  // ---------------------------------------------------------------- the rosters after a hit

  /** A hit that leaves the defender alive rewrites two distinct live units in place. */
  lemma RostersHit(g: Grid, units: Record<Id, Unit>, destroyed: Record<Id, Unit>, a: Id, av: Unit, t: Id, tv: Unit)
    requires Rosters(g, units, destroyed)
    requires a in units.entries && t in units.entries && a != t
    requires av.id == a && av.position == units.entries[a].position && UnitOk(av)
    requires tv.id == t && tv.position == units.entries[t].position && UnitOk(tv)
    ensures Rosters(g, Put(Put(units, a, av), t, tv), destroyed)
  {
    RostersUpdate(g, units, destroyed, a, av);
    RostersUpdate(g, Put(units, a, av), destroyed, t, tv);
  }

  /** A hit that destroys the defender rewrites the attacker and moves the defender to the destroyed roster. */
  lemma RostersKill(g: Grid, units: Record<Id, Unit>, destroyed: Record<Id, Unit>, a: Id, av: Unit, t: Id, tv: Unit)
    requires Rosters(g, units, destroyed)
    requires a in units.entries && t in units.entries && a != t
    requires av.id == a && av.position == units.entries[a].position && UnitOk(av)
    requires tv.id == t && UnitOk(tv)
    ensures Rosters(Place(g, units.entries[t].position, None), Remove(Put(units, a, av), t), Put(destroyed, t, tv))
  {
    RostersUpdate(g, units, destroyed, a, av);
    RostersDestroy(g, Put(units, a, av), destroyed, t, tv);
  }

  /** The attacker after a hit still has its stats in range. */
  lemma AfterHitOk(a: Unit, damage: int)
    requires UnitOk(a) && a.stats.actionPoints > 0
    ensures UnitOk(a.(stats := AfterHit(a.stats, damage)))
  {
  }

  // ---------------------------------------------------------------- what each path writes

  /** The fields ATTACK_AIRCRAFT writes on the dodge path. */
  lemma DodgeOutcome(s: GameState, t: Id, draws: Draws)
    requires WellFormed(s) && SelectionLive(s) && t in s.units.entries
    requires s.selected.Some? && s.selectedAction == AttackAction
    requires s.units.entries[s.selected.value].stats.actionPoints > 0 && draws.didDodge
    ensures var a := s.units.entries[s.selected.value];
            var r := AttackCase(s, t, draws);
            && r == s.(units := Put(s.units, s.selected.value, a.(stats := a.stats.(actionPoints := a.stats.actionPoints - 1))),
                       selectedAction := NoAction, attackable := [], lastMove := None,
                       log := Recent(s.log + [Dodged(s.units.entries[t].owner, s.units.entries[t].kind, a.owner, a.kind)]))
  {
  }

  /** The fields ATTACK_AIRCRAFT writes on a hit, before the defender's fate is decided. */
  lemma HitOutcome(s: GameState, t: Id, draws: Draws)
    requires WellFormed(s) && SelectionLive(s) && t in s.units.entries
    requires s.selected.Some? && s.selectedAction == AttackAction
    requires s.units.entries[s.selected.value].stats.actionPoints > 0 && !draws.didDodge
    ensures var aid := s.selected.value;
            var a := s.units.entries[aid];
            var d := s.units.entries[t];
            var damage := Damage(a.stats, d.stats, draws.isCritical);
            var scored := Put(s.units, aid, a.(stats := AfterHit(a.stats, damage)));
            var r := AttackCase(s, t, draws);
            && r.selected == s.selected && r.currentPlayer == s.currentPlayer && r.highlights == s.highlights
            && r.lastMove.None? && r.selectedAction == NoAction && r.attackable == [] && r.supportable == []
            && (a.owner == Human ==> r.damageDealt == s.damageDealt + damage && r.damageTaken == s.damageTaken)
            && (a.owner != Human ==> r.damageTaken == s.damageTaken + damage && r.damageDealt == s.damageDealt)
            && (d.stats.hp - damage > 0 ==>
                  && r.units == Put(scored, t, d.(stats := d.stats.(hp := d.stats.hp - damage)))
                  && r.grid == s.grid && r.destroyed == s.destroyed)
            && (d.stats.hp - damage <= 0 ==>
                  && r.units == Remove(scored, t)
                  && r.grid == Place(s.grid, d.position, None)
                  && r.destroyed == Put(s.destroyed, t, d.(stats := d.stats.(hp := 0))))
  {
    var aid := s.selected.value;
    var a := s.units.entries[aid];
    assert a.id == aid && s.units.entries[t].id == t;
    PutTwice(s.units, aid, a.(stats := a.stats.(actionPoints := a.stats.actionPoints - 1)),
             a.(stats := AfterHit(a.stats, Damage(a.stats, s.units.entries[t].stats, draws.isCritical))));
  }

  // ---------------------------------------------------------------- guards and effects

  /** ATTACK_AIRCRAFT does nothing unless a unit is selected, "attack" is chosen and the attacker has action points (page.tsx:187-190). */
  lemma AttackGuard(s: GameState, t: Id, draws: Draws)
    requires WellFormed(s) && SelectionLive(s) && t in s.units.entries
    requires s.selected.None? || s.selectedAction != AttackAction ||
             s.units.entries[s.selected.value].stats.actionPoints <= 0
    ensures AttackCase(s, t, draws) == s
  {
  }

  /**
   * A dodged attack costs the attacker exactly one action point and
   * changes nothing else about any unit, the grid, the destroyed roster
   * or the damage counters (page.tsx:204, 216-227).
   */
  lemma AttackDodged(s: GameState, t: Id, draws: Draws)
    requires WellFormed(s) && SelectionLive(s) && t in s.units.entries
    requires s.selected.Some? && s.selectedAction == AttackAction
    requires s.units.entries[s.selected.value].stats.actionPoints > 0 && draws.didDodge
    ensures var aid := s.selected.value;
            var a := s.units.entries[aid];
            var r := AttackCase(s, t, draws);
            && r.units.keys == s.units.keys
            && r.units.entries.Keys == s.units.entries.Keys
            && r.units.entries[aid].stats.actionPoints == a.stats.actionPoints - 1
            && r.units.entries[aid].(stats := a.stats) == a
            && r.units.entries[aid].stats.(actionPoints := a.stats.actionPoints) == a.stats
            && (forall k | k in s.units.entries && k != aid :: r.units.entries[k] == s.units.entries[k])
            && r.grid == s.grid && r.destroyed == s.destroyed
            && r.damageDealt == s.damageDealt && r.damageTaken == s.damageTaken
            && r.lastMove.None? && r.selectedAction == NoAction
            && |r.log| <= LogLimit && r.log[|r.log| - 1].Dodged?
  {
    DodgeOutcome(s, t, draws);
  }

  /**
   * On a hit the attacker pays one action point and gains the damage as XP,
   * the damage is at least 1 and at least `attack - defense`, and it is
   * booked as dealt when the human player attacks and as taken otherwise.
   * When the XP reaches `100 * level` the attacker levels up: level + 1,
   * XP back to 0, attack + 5, maximum and current health + 10
   * (page.tsx:229-256).
   */
  lemma AttackHitAttacker(s: GameState, t: Id, draws: Draws)
    requires WellFormed(s) && SelectionLive(s) && t in s.units.entries
    requires s.selected.Some? && s.selectedAction == AttackAction && t != s.selected.value
    requires s.units.entries[s.selected.value].stats.actionPoints > 0 && !draws.didDodge
    requires s.units.entries[s.selected.value].stats.critDamage >= 1.0
    ensures var aid := s.selected.value;
            var a := s.units.entries[aid];
            var d := s.units.entries[t];
            var damage := Damage(a.stats, d.stats, draws.isCritical);
            var r := AttackCase(s, t, draws);
            && damage >= 1 && damage >= a.stats.attack - d.stats.defense
            && (a.owner == Human ==> r.damageDealt == s.damageDealt + damage && r.damageTaken == s.damageTaken)
            && (a.owner != Human ==> r.damageTaken == s.damageTaken + damage && r.damageDealt == s.damageDealt)
            && aid in r.units.entries
            && var st := r.units.entries[aid].stats;
            && r.units.entries[aid] == a.(stats := st)
            && st.actionPoints == a.stats.actionPoints - 1
            && (a.stats.xp + damage < 100 * a.stats.level ==>
                  st == a.stats.(xp := a.stats.xp + damage, actionPoints := a.stats.actionPoints - 1))
            && (a.stats.xp + damage >= 100 * a.stats.level ==>
                  && st.level == a.stats.level + 1 && st.xp == 0 && st.attack == a.stats.attack + 5
                  && st.maxHp == a.stats.maxHp + 10 && st.hp == a.stats.hp + 10
                  && st.(level := a.stats.level, xp := a.stats.xp, attack := a.stats.attack, maxHp := a.stats.maxHp,
                         hp := a.stats.hp, actionPoints := a.stats.actionPoints) == a.stats)
  {
    HitOutcome(s, t, draws);
  }

  /**
   * A defender that survives the hit loses exactly the damage in health and
   * nothing else; one that drops to 0 or below leaves the live roster, joins
   * the destroyed roster with health 0 and its cell is cleared. Units other
   * than the two fighting are untouched either way (page.tsx:264-278).
   */
  lemma AttackHitDefender(s: GameState, t: Id, draws: Draws)
    requires WellFormed(s) && SelectionLive(s) && t in s.units.entries
    requires s.selected.Some? && s.selectedAction == AttackAction && t != s.selected.value
    requires s.units.entries[s.selected.value].stats.actionPoints > 0 && !draws.didDodge
    ensures var aid := s.selected.value;
            var d := s.units.entries[t];
            var damage := Damage(s.units.entries[aid].stats, d.stats, draws.isCritical);
            var r := AttackCase(s, t, draws);
            && (forall k | k in s.units.entries && k != t && k != aid :: k in r.units.entries && r.units.entries[k] == s.units.entries[k])
            && (d.stats.hp - damage > 0 ==>
                  && t in r.units.entries && r.units.entries[t] == d.(stats := d.stats.(hp := d.stats.hp - damage))
                  && r.grid == s.grid && r.destroyed == s.destroyed)
            && (d.stats.hp - damage <= 0 ==>
                  && t !in r.units.entries
                  && r.destroyed.entries == s.destroyed.entries[t := d.(stats := d.stats.(hp := 0))]
                  && Shaped(r.grid) && At(r.grid, d.position) == None
                  && (forall p | InBounds(p) && p != d.position :: At(r.grid, p) == At(s.grid, p)))
  {
    HitOutcome(s, t, draws);
  }

  // ---------------------------------------------------------------- consistency of attacks

  /** An attack on a live unit of the other side keeps the state consistent, on every path. */
  lemma AttackKeepsConsistent(s: GameState, t: Id, draws: Draws)
    requires Consistent(s) && t in s.units.entries && s.units.entries[t].owner != s.currentPlayer
    ensures Consistent(AttackCase(s, t, draws))
  {
    if s.selected.Some? && s.selectedAction == AttackAction && s.units.entries[s.selected.value].stats.actionPoints > 0 {
      var aid := s.selected.value;
      assert aid != t;
      if draws.didDodge {
        DodgeKeepsConsistent(s, t, draws);
      } else {
        HitKeepsConsistent(s, t, draws);
      }
    }
  }

  lemma DodgeKeepsConsistent(s: GameState, t: Id, draws: Draws)
    requires Consistent(s) && t in s.units.entries
    requires s.selected.Some? && s.selectedAction == AttackAction
    requires s.units.entries[s.selected.value].stats.actionPoints > 0 && draws.didDodge
    ensures Consistent(AttackCase(s, t, draws))
  {
    var aid := s.selected.value;
    var a := s.units.entries[aid];
    AttackPremises(s, t);
    DodgeOutcome(s, t, draws);
    RostersUpdate(s.grid, s.units, s.destroyed, aid, a.(stats := a.stats.(actionPoints := a.stats.actionPoints - 1)));
  }

  lemma HitKeepsConsistent(s: GameState, t: Id, draws: Draws)
    requires Consistent(s) && t in s.units.entries && s.selected.Some? && t != s.selected.value
    requires s.selectedAction == AttackAction
    requires s.units.entries[s.selected.value].stats.actionPoints > 0 && !draws.didDodge
    ensures Consistent(AttackCase(s, t, draws))
  {
    var d := s.units.entries[t];
    if d.stats.hp - Damage(s.units.entries[s.selected.value].stats, d.stats, draws.isCritical) > 0 {
      SurviveKeepsConsistent(s, t, draws);
    } else {
      KillKeepsConsistent(s, t, draws);
    }
  }

  lemma SurviveKeepsConsistent(s: GameState, t: Id, draws: Draws)
    requires Consistent(s) && t in s.units.entries && s.selected.Some? && t != s.selected.value
    requires s.selectedAction == AttackAction
    requires s.units.entries[s.selected.value].stats.actionPoints > 0 && !draws.didDodge
    requires s.units.entries[t].stats.hp - Damage(s.units.entries[s.selected.value].stats, s.units.entries[t].stats, draws.isCritical) > 0
    ensures Consistent(AttackCase(s, t, draws))
  {
    var aid := s.selected.value;
    var a := s.units.entries[aid];
    var d := s.units.entries[t];
    var damage := Damage(a.stats, d.stats, draws.isCritical);
    AttackPremises(s, t);
    AfterHitOk(a, damage);
    HitOutcome(s, t, draws);
    RostersHit(s.grid, s.units, s.destroyed, aid, a.(stats := AfterHit(a.stats, damage)),
               t, d.(stats := d.stats.(hp := d.stats.hp - damage)));
  }

  lemma KillKeepsConsistent(s: GameState, t: Id, draws: Draws)
    requires Consistent(s) && t in s.units.entries && s.selected.Some? && t != s.selected.value
    requires s.selectedAction == AttackAction
    requires s.units.entries[s.selected.value].stats.actionPoints > 0 && !draws.didDodge
    requires s.units.entries[t].stats.hp - Damage(s.units.entries[s.selected.value].stats, s.units.entries[t].stats, draws.isCritical) <= 0
    ensures Consistent(AttackCase(s, t, draws))
  {
    var aid := s.selected.value;
    var a := s.units.entries[aid];
    var d := s.units.entries[t];
    var damage := Damage(a.stats, d.stats, draws.isCritical);
    AttackPremises(s, t);
    AfterHitOk(a, damage);
    HitOutcome(s, t, draws);
    RostersKill(s.grid, s.units, s.destroyed, aid, a.(stats := AfterHit(a.stats, damage)),
                t, d.(stats := d.stats.(hp := 0)));
  }

  /** What a consistent state tells about the attacker and the defender. */
  lemma AttackPremises(s: GameState, t: Id)
    requires Consistent(s) && t in s.units.entries && s.selected.Some?
    ensures WellFormed(s) && SelectionLive(s)
    ensures s.units.entries[s.selected.value].id == s.selected.value && s.units.entries[t].id == t
    ensures UnitOk(s.units.entries[s.selected.value]) && UnitOk(s.units.entries[t])
    ensures s.units.entries[s.selected.value].owner == s.currentPlayer
  {
  }

  // ---------------------------------------------------------------- revival

  /** Whether SPECIAL_AIRCRAFT revives anyone: every guard of page.tsx:297-312 passes. */
  ghost predicate Revives(s: GameState, reviveId: Option<Id>, position: Option<Pos>)
    requires WellFormed(s) && SelectionLive(s)
  {
    && s.selected.Some? && s.selectedAction == SpecialAction
    && s.units.entries[s.selected.value].stats.actionPoints > 0
    && s.units.entries[s.selected.value].kind == Support
    && |UnitsOf(s.destroyed, s.currentPlayer)| > 0 && position.Some?
    && Chosen(s, reviveId).Some?
  }

  /** The fields SPECIAL_AIRCRAFT writes when it revives. */
  lemma ReviveOutcome(s: GameState, reviveId: Option<Id>, position: Option<Pos>)
    requires WellFormed(s) && SelectionLive(s) && (position.Some? ==> InBounds(position.value))
    requires Revives(s, reviveId, position)
    ensures var c := s.units.entries[s.selected.value];
            var d := Chosen(s, reviveId).value;
            SpecialCase(s, reviveId, position) ==
              s.(units := Put(Put(s.units, d.id, Restored(d, position.value)), c.id, Spent(c)),
                 destroyed := Remove(s.destroyed, d.id),
                 grid := Place(s.grid, position.value, Some(d.id)),
                 selectedAction := NoAction, highlights := {}, lastMove := None,
                 log := Append(s.log, Revived(c.owner, c.kind, d.owner, d.kind)))
  {
  }

  /**
   * SPECIAL_AIRCRAFT does nothing without a selected unit with "special"
   * chosen and action points left, when that unit is not a support, when
   * the current player has no destroyed unit, without a position, or when
   * the named unit is not among the destroyed (page.tsx:297-312).
   */
  lemma SpecialGuard(s: GameState, reviveId: Option<Id>, position: Option<Pos>)
    requires WellFormed(s) && SelectionLive(s) && (position.Some? ==> InBounds(position.value))
    requires !Revives(s, reviveId, position)
    ensures SpecialCase(s, reviveId, position) == s
  {
  }

  /**
   * A revival takes the chosen unit off the destroyed roster and puts it on
   * the given cell with `maxHp / 4` health, no action points, no cooldown
   * and no statuses, everything else about it as it was; the caster pays
   * the ability's energy cost and one action point, gets a cooldown of 5
   * and carries `empowered` exactly once; no other unit changes
   * (page.tsx:314-362).
   */
  lemma ReviveEffect(s: GameState, reviveId: Option<Id>, position: Option<Pos>)
    requires Consistent(s) && (position.Some? ==> InBounds(position.value))
    requires Revives(s, reviveId, position)
    ensures var cid, d, p := s.selected.value, Chosen(s, reviveId).value, position.value;
            var c, r := s.units.entries[cid], SpecialCase(s, reviveId, position);
            // the revived unit was destroyed, and is the one asked for
            && d.id in s.destroyed.entries && s.destroyed.entries[d.id] == d
            && (reviveId.Some? ==> d.id == reviveId.value)
            && (reviveId.None? ==> d.owner == s.currentPlayer)
            && d.id != cid
            // it stands at p with a quarter of its health
            && d.id in r.units.entries && d.id !in r.destroyed.entries
            && r.units.entries[d.id] == Restored(d, p)
            && Restored(d, p).stats.hp == d.stats.maxHp / 4
            && At(r.grid, p) == Some(d.id)
            // the caster pays and becomes empowered exactly once
            && cid in r.units.entries && r.units.entries[cid] == Spent(c)
            && Occurrences(Spent(c).statuses, Empowered) == 1
            // nobody else changes
            && (forall k | k in s.units.entries && k != cid :: k in r.units.entries && r.units.entries[k] == s.units.entries[k])
  {
    ChosenIsDestroyed(s, reviveId);
    assert s.units.entries[s.selected.value].id == s.selected.value;
    RevivedUnit(s, reviveId, position);
    ReviveCaster(s, reviveId, position);
  }

  lemma RevivedUnit(s: GameState, reviveId: Option<Id>, position: Option<Pos>)
    requires WellFormed(s) && SelectionLive(s) && (position.Some? ==> InBounds(position.value))
    requires Revives(s, reviveId, position)
    requires Chosen(s, reviveId).value.id != s.selected.value
    requires s.units.entries[s.selected.value].id == s.selected.value
    ensures var d := Chosen(s, reviveId).value;
            var p := position.value;
            var r := SpecialCase(s, reviveId, position);
            && d.id in r.units.entries && d.id !in r.destroyed.entries
            && r.units.entries[d.id] == Restored(d, p)
            && r.units.entries[d.id].stats.hp == d.stats.maxHp / 4
            && At(r.grid, p) == Some(d.id)
  {
    var d := Chosen(s, reviveId).value;
    ReviveOutcome(s, reviveId, position);
    ReviveHpIsQuarter(d.stats.maxHp);
  }

  lemma ReviveCaster(s: GameState, reviveId: Option<Id>, position: Option<Pos>)
    requires WellFormed(s) && SelectionLive(s) && (position.Some? ==> InBounds(position.value))
    requires Revives(s, reviveId, position)
    requires s.units.entries[s.selected.value].id == s.selected.value
    ensures var cid := s.selected.value;
            var c := s.units.entries[cid];
            var d := Chosen(s, reviveId).value;
            var r := SpecialCase(s, reviveId, position);
            && cid in r.units.entries && r.units.entries[cid] == Spent(c)
            && Occurrences(r.units.entries[cid].statuses, Empowered) == 1
            && (forall k | k in s.units.entries && k != cid && k != d.id :: k in r.units.entries && r.units.entries[k] == s.units.entries[k])
  {
    ReviveOutcome(s, reviveId, position);
    OneEmpowered(s.units.entries[s.selected.value].statuses);
  }

  /** The chosen unit is on the destroyed roster under its own id, so it is not live. */
  lemma ChosenIsDestroyed(s: GameState, reviveId: Option<Id>)
    requires Consistent(s)
    requires reviveId.None? ==> |UnitsOf(s.destroyed, s.currentPlayer)| > 0
    requires Chosen(s, reviveId).Some?
    ensures var d := Chosen(s, reviveId).value;
            && d.id in s.destroyed.entries && s.destroyed.entries[d.id] == d && d.id !in s.units.entries
            && UnitOk(d)
            && (reviveId.Some? ==> d.id == reviveId.value)
            && (reviveId.None? ==> d.owner == s.currentPlayer)
  {
    var d := Chosen(s, reviveId).value;
    if reviveId.None? {
      assert d in UnitsOf(s.destroyed, s.currentPlayer);
      var k :| k in s.destroyed.entries && s.destroyed.entries[k] == d;
      assert d.id == k;
    }
  }

  /** The rosters after a revival: the revived unit joins the live roster on an open cell, and the caster is rewritten in place. */
  lemma RostersRevival(g: Grid, units: Record<Id, Unit>, destroyed: Record<Id, Unit>, c: Id, cv: Unit, d: Id, dv: Unit)
    requires Rosters(g, units, destroyed)
    requires c in units.entries && d in destroyed.entries
    requires cv.id == c && cv.position == units.entries[c].position && UnitOk(cv)
    requires dv.id == d && Open(g, dv.position) && UnitOk(dv)
    ensures Rosters(Place(g, dv.position, Some(d)), Put(Put(units, d, dv), c, cv), Remove(destroyed, d))
  {
    RostersRevive(g, units, destroyed, d, dv);
    RostersUpdate(Place(g, dv.position, Some(d)), Put(units, d, dv), Remove(destroyed, d), c, cv);
  }

  /** A revival onto an open cell keeps the state consistent. */
  lemma SpecialKeepsConsistent(s: GameState, reviveId: Option<Id>, position: Option<Pos>)
    requires Consistent(s) && (position.Some? ==> Open(s.grid, position.value))
    ensures Consistent(SpecialCase(s, reviveId, position))
  {
    if Revives(s, reviveId, position) {
      ReviveKeepsConsistent(s, reviveId, position);
    } else {
      SpecialGuard(s, reviveId, position);
    }
  }

  lemma ReviveKeepsConsistent(s: GameState, reviveId: Option<Id>, position: Option<Pos>)
    requires Consistent(s) && (position.Some? ==> Open(s.grid, position.value))
    requires Revives(s, reviveId, position)
    ensures Consistent(SpecialCase(s, reviveId, position))
  {
    var c := s.units.entries[s.selected.value];
    var d := Chosen(s, reviveId).value;
    ChosenIsDestroyed(s, reviveId);
    RevivalPremises(s, c, d, position.value);
    ReviveOutcome(s, reviveId, position);
    RostersRevival(s.grid, s.units, s.destroyed, c.id, Spent(c), d.id, Restored(d, position.value));
  }

  lemma RevivalPremises(s: GameState, c: Unit, d: Unit, p: Pos)
    requires Consistent(s) && s.selected.Some? && c == s.units.entries[s.selected.value] && c.stats.actionPoints > 0
    requires UnitOk(d) && Open(s.grid, p)
    ensures c.id == s.selected.value && UnitOk(Spent(c)) && UnitOk(Restored(d, p)) && Restored(d, p).id == d.id
    ensures Spent(c).position == c.position && Spent(c).owner == c.owner && Restored(d, p).position == p
  {
    ReviveHpInRange(d.stats.maxHp);
  }
}
