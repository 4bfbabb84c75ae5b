/**
 * The opponent's whole turn (the effect of src/app/game/page.tsx:799-811):
 * `opponentAI` decides every opponent aircraft's actions on the state the
 * turn began with, they are dispatched in order, and END_TURN follows.
 */
module OpponentTurn {
  import opened Common
  import opened Records
  import opened Board
  import opened Model
  import opened Reducer
  import opened ReducerFacts
  import opened CombatFacts
  import opened Dispatch
  import opened Opponent
  import opened TurnFacts

  // ---------------------------------------------------------------- as written: decided on the snapshot

  /**
   * The actions `opponentAI` dispatches for the aircraft `us`, every one
   * decided on the state `s` it was given; `draws(k)` are the dodge and
   * critical rolls of the `k`-th aircraft's attack.
   */
  function Script(s: GameState, us: seq<Unit>, draws: nat -> Draws): seq<Action>
    requires Shaped(s.grid) && Valid(s.units)
  {
    if us == [] then []
    else
      var n := |us| - 1;
      Script(s, us[..n], draws) + Intents(Decide(s, us[n]), draws(n))
  }

  /** `opponentAI` (game-utils.ts:115-220): the actions dispatched for each opponent aircraft in roster order. */
  method OpponentAI(s: GameState, draws: nat -> Draws) returns (intents: seq<Action>)
    requires Shaped(s.grid) && Valid(s.units)
    ensures intents == Script(s, Squadron(s), draws)
  {
    var squadron := Squadron(s);
    intents := [];
    for k := 0 to |squadron|
      invariant intents == Script(s, squadron[..k], draws)
    {
      var d := Choose(s, squadron[k]);
      ScriptGrows(s, squadron, k, draws);
      intents := intents + Intents(d, draws(k));
    }
    assert squadron[..|squadron|] == squadron;
  }

  /** The whole turn of page.tsx:802-808: the AI's actions, then END_TURN. */
  function TurnScript(s: GameState, draws: nat -> Draws): seq<Action>
    requires Shaped(s.grid) && Valid(s.units)
  {
    Script(s, Squadron(s), draws) + [EndTurn]
  }

  /** The script for a prefix of the aircraft is a prefix of the script. */
  lemma {:induction false} ScriptPrefix(s: GameState, us: seq<Unit>, k: nat, draws: nat -> Draws)
    requires Shaped(s.grid) && Valid(s.units) && k <= |us|
    ensures Script(s, us[..k], draws) <= Script(s, us, draws)
    decreases |us|
  {
    if k < |us| {
      var n := |us| - 1;
      assert us[..n][..k] == us[..k];
      ScriptPrefix(s, us[..n], k, draws);
      ScriptOneMore(s, us, draws);
      PrefixTrans(Script(s, us[..k], draws), Script(s, us[..n], draws), Script(s, us, draws));
    } else {
      assert us[..k] == us;
    }
  }

  /** The script for all but the last aircraft is a prefix of the whole script. */
  lemma ScriptOneMore(s: GameState, us: seq<Unit>, draws: nat -> Draws)
    requires Shaped(s.grid) && Valid(s.units) && us != []
    ensures Script(s, us[..|us| - 1], draws) <= Script(s, us, draws)
  {
    var n := |us| - 1;
    ScriptLast(s, us, draws);
    var front, last := Script(s, us[..n], draws), Intents(Decide(s, us[n]), draws(n));
    assert front <= front + last;
  }

  lemma PrefixTrans<T>(a: seq<T>, b: seq<T>, c: seq<T>)
    requires a <= b && b <= c
    ensures a <= c
  {
    assert c[..|a|] == b[..|a|];
  }

  // ---------------------------------------------------------------- the stale snapshot

  /** No two units of `us` share an id. */
  predicate IdsDistinct(us: seq<Unit>) {
    forall i, j | 0 <= i < j < |us| :: us[i].id != us[j].id
  }

  lemma RosterIdsDistinct(r: Record<Id, Unit>)
    requires Valid(r) && KeyedById(r)
    ensures IdsDistinct(Roster(r))
  {
    var us := Roster(r);
    forall i, j | 0 <= i < j < |us|
      ensures us[i].id != us[j].id
    {
      assert r.keys[i] in r.entries && r.keys[j] in r.entries;
    }
  }

  lemma {:induction false} OwnedByIdsDistinct(us: seq<Unit>, who: Player)
    requires IdsDistinct(us)
    ensures IdsDistinct(OwnedBy(us, who))
  {
    if us != [] {
      var rest := us[1..];
      HeadIdFresh(us);
      OwnedByIdsDistinct(rest, who);
      if us[0].owner == who {
        ConsIdsDistinct(us[0], OwnedBy(rest, who), rest);
      }
    }
  }

  /** The first unit's id is not repeated later, and the later ids are distinct among themselves. */
  lemma HeadIdFresh(us: seq<Unit>)
    requires IdsDistinct(us) && us != []
    ensures IdsDistinct(us[1..])
    ensures forall x | x in us[1..] :: x.id != us[0].id
  {
    var rest := us[1..];
    forall i, j | 0 <= i < j < |rest|
      ensures rest[i].id != rest[j].id
    {
      assert rest[i] == us[i + 1] && rest[j] == us[j + 1];
    }
    forall x | x in rest
      ensures x.id != us[0].id
    {
      var k :| 0 <= k < |rest| && rest[k] == x;
      assert rest[k] == us[k + 1];
    }
  }

  /** Putting a unit whose id is fresh for `rest` in front of distinct units drawn from `rest` keeps ids distinct. */
  lemma ConsIdsDistinct(u: Unit, tail: seq<Unit>, rest: seq<Unit>)
    requires IdsDistinct(tail) && (forall x | x in tail :: x in rest) && (forall x | x in rest :: x.id != u.id)
    ensures IdsDistinct([u] + tail)
  {
    var r := [u] + tail;
    forall i, j | 0 <= i < j < |r|
      ensures r[i].id != r[j].id
    {
      assert r[j] == tail[j - 1] && r[j] in tail;
      if i > 0 {
        assert r[i] == tail[i - 1];
      }
    }
  }

  /** The opponent's aircraft of a consistent state are live units with different ids. */
  lemma SquadronLive(s: GameState, k: nat)
    requires Consistent(s) && k < |Squadron(s)|
    ensures var u := Squadron(s)[k];
            u.owner == Opponent && u.id in s.units.entries && s.units.entries[u.id] == u
    ensures IdsDistinct(Squadron(s))
  {
    var u := Squadron(s)[k];
    assert u in Squadron(s);
    InRoster(s.units, u);
    RosterIdsDistinct(s.units);
    OwnedByIdsDistinct(Roster(s.units), Opponent);
  }

  /** Dispatching two actions the reducer can take, one after the other. */
  lemma RunTwo(s: GameState, x: Action, y: Action, env: Env)
    requires Defined(s, x) && Defined(Reduce(s, x, env), y)
    ensures Run(s, [x, y], env) == Some(Reduce(Reduce(s, x, env), y, env))
  {
    var s1 := Reduce(s, x, env);
    assert [x, y][1..] == [y] && [y][1..] == [];
    assert Run(s, [x, y], env) == Run(s1, [y], env);
    assert Run(s1, [y], env) == Run(Reduce(s1, y, env), [], env);
  }

  /** Selecting one's own aircraft with action points left and choosing to attack arms it. */
  lemma Arm(s: GameState, id: Id, env: Env)
    requires Consistent(s) && id in s.units.entries && s.units.entries[id].owner == s.currentPlayer
    requires s.phase == Playing && s.units.entries[id].stats.actionPoints > 0
    ensures var r := Run(s, [SelectAircraft(id), SelectAction(AttackAction)], env);
            && r.Some? && Consistent(r.value) && Keeps(r.value, s)
            && r.value.selected == Some(id) && r.value.selectedAction == AttackAction
  {
    SelectAircraftStep(s, id, env);
    var s1 := Reduce(s, SelectAircraft(id), env);
    assert s1.selected == Some(id);
    SelectActionStep(s1, AttackAction, env);
    assert Reduce(s1, SelectAction(AttackAction), env) == SelectActionCase(s1, AttackAction);
    RunTwo(s, SelectAircraft(id), SelectAction(AttackAction), env);
  }

  /** A hit that leaves the defender without health removes it from the live roster; the other units but the attacker are untouched. */
  lemma Kill(s: GameState, c: Id, t: Id, dr: Draws, env: Env)
    requires Consistent(s) && s.selected == Some(c) && s.selectedAction == AttackAction
    requires t in s.units.entries && s.units.entries[t].owner != s.currentPlayer
    requires s.units.entries[c].stats.actionPoints > 0 && !dr.didDodge
    requires s.units.entries[t].stats.hp <= Damage(s.units.entries[c].stats, s.units.entries[t].stats, dr.isCritical)
    ensures Defined(s, AttackAircraft(t, dr))
    ensures var r := Reduce(s, AttackAircraft(t, dr), env);
            && Consistent(r) && r.currentPlayer == s.currentPlayer && r.phase == s.phase
            && t !in r.units.entries
            && forall k | k in s.units.entries && k != t && k != c :: k in r.units.entries && r.units.entries[k] == s.units.entries[k]
  {
    ConsistentIsWellFormed(s);
    assert c != t;
    AttackHitDefender(s, t, dr);
    AttackStep(s, t, dr, env);
  }

  /** A first attack that destroys its target: the target is gone, and every other unit but the attacker is as it was. */
  lemma FirstVolley(s: GameState, a0: Id, t: Id, d0: Draws, env: Env)
    requires Consistent(s) && s.phase == Playing
    requires a0 in s.units.entries && s.units.entries[a0].owner == s.currentPlayer && s.units.entries[a0].stats.actionPoints > 0
    requires t in s.units.entries && s.units.entries[t].owner != s.currentPlayer && !d0.didDodge
    requires s.units.entries[t].stats.hp <= Damage(s.units.entries[a0].stats, s.units.entries[t].stats, d0.isCritical)
    ensures var r := Run(s, [SelectAircraft(a0), SelectAction(AttackAction), AttackAircraft(t, d0)], env);
            && r.Some? && Consistent(r.value) && r.value.currentPlayer == s.currentPlayer && r.value.phase == s.phase
            && t !in r.value.units.entries
            && forall k | k in s.units.entries && k != t && k != a0 :: k in r.value.units.entries && r.value.units.entries[k] == s.units.entries[k]
  {
    var arm0 := [SelectAircraft(a0), SelectAction(AttackAction)];
    Arm(s, a0, env);
    var s2 := Run(s, arm0, env).value;
    Kill(s2, a0, t, d0, env);
    RunOne(s2, AttackAircraft(t, d0), env);
    RunAppend(s, arm0, [AttackAircraft(t, d0)], env);
    Spliced(SelectAircraft(a0), SelectAction(AttackAction), AttackAircraft(t, d0), UndoMove, UndoMove, UndoMove);
  }

  /**
   * Two of the current player's aircraft attacking the same enemy, one
   * after the other: when the first attack destroys it, the second
   * aircraft is armed against a unit that is gone, and the reducer cannot
   * take its attack.
   */
  lemma DoubleStrike(s: GameState, a0: Id, a1: Id, t: Id, d0: Draws, d1: Draws, env: Env)
    requires Consistent(s) && s.phase == Playing && a0 != a1
    requires a0 in s.units.entries && s.units.entries[a0].owner == s.currentPlayer && s.units.entries[a0].stats.actionPoints > 0
    requires a1 in s.units.entries && s.units.entries[a1].owner == s.currentPlayer && s.units.entries[a1].stats.actionPoints > 0
    requires t in s.units.entries && s.units.entries[t].owner != s.currentPlayer && !d0.didDodge
    requires s.units.entries[t].stats.hp <= Damage(s.units.entries[a0].stats, s.units.entries[t].stats, d0.isCritical)
    ensures var r := Run(s, [SelectAircraft(a0), SelectAction(AttackAction), AttackAircraft(t, d0),
                             SelectAircraft(a1), SelectAction(AttackAction)], env);
            && r.Some? && r.value.selected == Some(a1) && r.value.selectedAction == AttackAction
            && a1 in r.value.units.entries && r.value.units.entries[a1].stats.actionPoints > 0
            && t !in r.value.units.entries
    ensures Run(s, [SelectAircraft(a0), SelectAction(AttackAction), AttackAircraft(t, d0),
                    SelectAircraft(a1), SelectAction(AttackAction), AttackAircraft(t, d1)], env) == None
  {
    var first := [SelectAircraft(a0), SelectAction(AttackAction), AttackAircraft(t, d0)];
    var arm := [SelectAircraft(a1), SelectAction(AttackAction)];
    FirstVolley(s, a0, t, d0, env);
    var s3 := Run(s, first, env).value;
    Arm(s3, a1, env);
    RunAppend(s, first, arm, env);
    var s5 := Run(s3, arm, env).value;
    assert !Defined(s5, AttackAircraft(t, d1));
    RunAppend(s, first + arm, [AttackAircraft(t, d1)], env);
    Spliced(SelectAircraft(a0), SelectAction(AttackAction), AttackAircraft(t, d0),
            SelectAircraft(a1), SelectAction(AttackAction), AttackAircraft(t, d1));
  }

  lemma Spliced<T>(x0: T, x1: T, x2: T, x3: T, x4: T, x5: T)
    ensures [x0, x1] + [x2] == [x0, x1, x2]
    ensures [x0, x1, x2] + [x3, x4] == [x0, x1, x2, x3, x4]
    ensures [x0, x1, x2] + [x3, x4] + [x5] == [x0, x1, x2, x3, x4, x5]
    ensures [x0, x1, x2] + [x3, x4, x5] == [x0, x1, x2, x3, x4, x5]
  {
  }

  /** The script for the first two aircraft is their two decisions' actions. */
  lemma ScriptTwo(s: GameState, us: seq<Unit>, draws: nat -> Draws)
    requires Shaped(s.grid) && Valid(s.units) && |us| >= 2
    ensures Script(s, us[..2], draws) == Intents(Decide(s, us[0]), draws(0)) + Intents(Decide(s, us[1]), draws(1))
  {
    var two := us[..2];
    assert two[..1] == [us[0]] && two[1] == us[1] && [us[0]][..0] == [];
    ScriptLast(s, two, draws);
    ScriptLast(s, [us[0]], draws);
  }

  lemma ScriptGrows(s: GameState, us: seq<Unit>, k: nat, draws: nat -> Draws)
    requires Shaped(s.grid) && Valid(s.units) && k < |us|
    ensures Script(s, us[..k + 1], draws) == Script(s, us[..k], draws) + Intents(Decide(s, us[k]), draws(k))
  {
    assert us[..k + 1][..k] == us[..k] && us[..k + 1][k] == us[k];
    ScriptLast(s, us[..k + 1], draws);
  }

  lemma ScriptLast(s: GameState, us: seq<Unit>, draws: nat -> Draws)
    requires Shaped(s.grid) && Valid(s.units) && |us| > 0
    ensures Script(s, us, draws) == Script(s, us[..|us| - 1], draws) + Intents(Decide(s, us[|us| - 1]), draws(|us| - 1))
  {
  }

  /**
   * The snapshot is stale (page.tsx:804 hands `opponentAI` the state of
   * the turn's start; game-utils.ts:116-117 lists the units once). When
   * the first two opponent aircraft both decide to attack the same human
   * unit and the first attack destroys it, the second aircraft is armed
   * against a unit that is gone: the ATTACK_AIRCRAFT it dispatches reads
   * the missing defender (page.tsx:192, 202), and the turn cannot be
   * carried out.
   */
  lemma StaleTargetCrashes(s: GameState, draws: nat -> Draws, env: Env, t: Id)
    requires Consistent(s) && s.currentPlayer == Opponent && s.phase == Playing
    requires |Squadron(s)| >= 2
    requires Decide(s, Squadron(s)[0]) == Strike(Squadron(s)[0].id, t)
    requires Decide(s, Squadron(s)[1]) == Strike(Squadron(s)[1].id, t)
    requires Squadron(s)[0].stats.actionPoints > 0 && Squadron(s)[1].stats.actionPoints > 0
    requires t in s.units.entries && !draws(0).didDodge
    requires s.units.entries[t].stats.hp <= Damage(Squadron(s)[0].stats, s.units.entries[t].stats, draws(0).isCritical)
    ensures var a0, a1 := Squadron(s)[0].id, Squadron(s)[1].id;
            var r := Run(s, [SelectAircraft(a0), SelectAction(AttackAction), AttackAircraft(t, draws(0)),
                             SelectAircraft(a1), SelectAction(AttackAction)], env);
            && r.Some? && r.value.selected == Some(a1) && r.value.selectedAction == AttackAction
            && a1 in r.value.units.entries && r.value.units.entries[a1].stats.actionPoints > 0
            && t !in r.value.units.entries
    ensures Run(s, TurnScript(s, draws), env) == None
  {
    var sq := Squadron(s);
    var a0, a1 := sq[0], sq[1];
    SquadronLive(s, 0);
    SquadronLive(s, 1);
    var t' := StrikeTarget(s, a0);
    DoubleStrike(s, a0.id, a1.id, t, draws(0), draws(1), env);
    var x0, x1, x2 := SelectAircraft(a0.id), SelectAction(AttackAction), AttackAircraft(t, draws(0));
    var x3, x4, x5 := SelectAircraft(a1.id), SelectAction(AttackAction), AttackAircraft(t, draws(1));
    Spliced(x0, x1, x2, x3, x4, x5);
    var xs := Script(s, sq[..2], draws);
    ScriptTwo(s, sq, draws);
    assert xs == [x0, x1, x2] + [x3, x4, x5];
    ScriptPrefix(s, sq, 2, draws);
    PrefixGrows(xs, Script(s, sq, draws), [EndTurn]);
    RunStuck(s, xs, TurnScript(s, draws), env);
  }

  lemma PrefixGrows<T>(xs: seq<T>, ys: seq<T>, zs: seq<T>)
    requires xs <= ys
    ensures xs <= ys + zs
  {
    assert (ys + zs)[..|xs|] == ys[..|xs|];
  }

  // ---------------------------------------------------------------- corrected: decided on the live state

  /**
   * The turn as intended: each opponent aircraft of the turn's start that
   * is still live decides on the state the earlier aircraft left, its
   * actions are dispatched, and END_TURN follows. Every action is one the
   * reducer can take, the state stays consistent, and the human player
   * moves next.
   */
  method LiveTurn(s: GameState, draws: nat -> Draws, env: Env) returns (r: GameState, intents: seq<Action>)
    requires Consistent(s) && s.currentPlayer == Opponent
    ensures intents == LiveScript(s, Squadron(s), draws, 0, env) + [EndTurn]
    ensures Run(s, intents, env) == Some(r)
    ensures Consistent(r) && r.currentPlayer == Human
  {
    var squadron := Squadron(s);
    r, intents := s, [];
    for k := 0 to |squadron|
      invariant Run(s, intents, env) == Some(r)
      invariant Consistent(r) && r.currentPlayer == Opponent
      invariant intents + LiveScript(r, squadron[k..], draws, k, env) == LiveScript(s, squadron, draws, 0, env)
    {
      r, intents := LiveStep(s, squadron, draws, env, k, r, intents, LiveScript(s, squadron, draws, 0, env));
    }
    assert squadron[|squadron|..] == [];
    assert intents == LiveScript(s, squadron, draws, 0, env);
    EndsTurn(r, env);
    RunAppend(s, intents, [EndTurn], env);
    r, intents := Reduce(r, EndTurn, env), intents + [EndTurn];
  }

  /**
   * The actions of the corrected turn for the aircraft `us` (the `k`-th
   * onwards of the turn's start): an aircraft no longer live is skipped;
   * a live one decides on the state `s` the earlier ones left, and the
   * rest decide on the state its actions lead to. A dispatch the reducer
   * cannot take ends the script there, and so does a malformed state
   * (`LiveTurn` shows neither happens).
   */
  ghost function LiveScript(s: GameState, us: seq<Unit>, draws: nat -> Draws, k: nat, env: Env): seq<Action>
    decreases |us|
  {
    if us == [] || !Shaped(s.grid) || !Valid(s.units) then []
    else if us[0].id !in s.units.entries then LiveScript(s, us[1..], draws, k + 1, env)
    else
      var acts := Intents(Decide(s, s.units.entries[us[0].id]), draws(k));
      match Run(s, acts, env)
      case None => acts
      case Some(next) => acts + LiveScript(next, us[1..], draws, k + 1, env)
  }

  lemma Regroup<T>(xs: seq<T>, ys: seq<T>, here: seq<T>, rest: seq<T>, whole: seq<T>)
    requires xs + here == whole && here == ys + rest
    ensures (xs + ys) + rest == whole
  {
  }

  /** A live aircraft's actions come first in the rest of the corrected turn. */
  lemma LiveUnfold(r: GameState, us: seq<Unit>, draws: nat -> Draws, k: nat, env: Env, acts: seq<Action>, next: GameState)
    requires Shaped(r.grid) && Valid(r.units) && k < |us| && us[k].id in r.units.entries
    requires acts == Intents(Decide(r, r.units.entries[us[k].id]), draws(k))
    requires Run(r, acts, env) == Some(next)
    ensures LiveScript(r, us[k..], draws, k, env) == acts + LiveScript(next, us[k + 1..], draws, k + 1, env)
  {
    assert us[k..][0] == us[k] && us[k..][1..] == us[k + 1..];
  }

  /** An aircraft no longer live is passed over in the rest of the corrected turn. */
  lemma LiveSkipped(r: GameState, us: seq<Unit>, draws: nat -> Draws, k: nat, env: Env)
    requires Shaped(r.grid) && Valid(r.units) && k < |us| && us[k].id !in r.units.entries
    ensures LiveScript(r, us[k..], draws, k, env) == LiveScript(r, us[k + 1..], draws, k + 1, env)
  {
    assert us[k..][0] == us[k] && us[k..][1..] == us[k + 1..];
  }

  /** The loop body of `LiveTurn` for the `k`-th aircraft of the turn's start. */
  method LiveStep(s: GameState, squadron: seq<Unit>, draws: nat -> Draws, env: Env, k: nat,
                  r: GameState, intents: seq<Action>, ghost whole: seq<Action>)
      returns (r': GameState, intents': seq<Action>)
    requires k < |squadron| && Run(s, intents, env) == Some(r)
    requires Consistent(r) && r.currentPlayer == Opponent
    requires intents + LiveScript(r, squadron[k..], draws, k, env) == whole
    ensures Run(s, intents', env) == Some(r')
    ensures Consistent(r') && r'.currentPlayer == Opponent
    ensures intents' + LiveScript(r', squadron[k + 1..], draws, k + 1, env) == whole
  {
    var id := squadron[k].id;
    ConsistentIsWellFormed(r);
    if id in r.units.entries {
      var next, acts := Act(r, r.units.entries[id], draws(k), env);
      RunAppend(s, intents, acts, env);
      LiveUnfold(r, squadron, draws, k, env, acts, next);
      Regroup(intents, acts, LiveScript(r, squadron[k..], draws, k, env),
              LiveScript(next, squadron[k + 1..], draws, k + 1, env), whole);
      r', intents' := next, intents + acts;
    } else {
      LiveSkipped(r, squadron, draws, k, env);
      r', intents' := r, intents;
    }
  }

  /** One opponent aircraft decides on the live state and its actions are dispatched. */
  method Act(s: GameState, a: Unit, dr: Draws, env: Env) returns (r: GameState, acts: seq<Action>)
    requires Consistent(s) && s.currentPlayer == Opponent && a.id in s.units.entries
    ensures acts == Intents(Decide(s, a), dr)
    ensures Run(s, acts, env) == Some(r)
    ensures Consistent(r) && r.currentPlayer == Opponent
  {
    ConsistentIsWellFormed(s);
    var d := Choose(s, a);
    acts := Intents(d, dr);
    DecisionApplies(s, a, dr, env);
    r := Apply(s, acts, env);
  }

  /** The END_TURN that closes the opponent's turn hands it to the player. */
  lemma EndsTurn(s: GameState, env: Env)
    requires Consistent(s) && s.currentPlayer == Opponent
    ensures Defined(s, EndTurn) && Run(s, [EndTurn], env) == Some(Reduce(s, EndTurn, env))
    ensures Consistent(Reduce(s, EndTurn, env)) && Reduce(s, EndTurn, env).currentPlayer == Human
  {
    ConsistentIsWellFormed(s);
    EndTurnKeepsConsistent(s, env);
    EndTurnEffect(s, env);
    RunOne(s, EndTurn, env);
  }
}
