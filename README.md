# Sky-Combat battle engine in Dafny

This project models the turn-based air-combat engine of Sky-Combat.

**The battlefield.** Two sides fight on a 12×12 battlefield: the human player and the computer opponent. Each side starts with three aircraft: a fighter, a bomber and a support. An aircraft has a stat block:
- health, attack, defense, range and speed;
- level, experience and energy;
- action points, critical-hit and dodge chances;
- a special-ability cost and cooldown;
- status tags (stunned, shielded, empowered).

**The model covers:**
- **Reducer.** `gameReducer` of `src/app/game/page.tsx` is a pure function from a game state and an action to the next state. It covers the cases for selecting an aircraft or an action, moving, attacking, reviving, undoing a move, ending the turn, ticking the turn timer, declaring the game over and starting a new survival wave.
- **Fog of war.** The visibility grid and the grid the human player is shown.
- **Input routing.** How a click on a cell, the action buttons, End Turn, Undo and the timer become reducer actions.
- **Game-over check.** The check that ends the game or calls the next wave.
- **Initial state.** `createInitialState` of `src/lib/game-utils.ts`: the fixed roster of six aircraft with fresh stats, placed on distinct random cells in the two home bands.
- **Opponent AI.** `opponentAI` chooses, for each opponent aircraft in roster order:
  - a friend to heal;
  - the nearest enemy to attack;
  - or the cell that brings it closest to the nearest enemy.
- **Stat table.** `AIRCRAFT_STATS` of `src/lib/game-constants.ts`.

**How the model is built.**
- **State.** The game state is a value (`Model.GameState`). The live and the destroyed aircraft are each a `Records.Record`: a map from id to aircraft, plus its keys in insertion order. That order is what `Object.values` walks in the source, and it decides:
  - which destroyed friend is revived first;
  - the order of the attackable list;
  - the order in which the opponent's aircraft act.
- **Grid.** The grid holds aircraft ids. The source holds copies of aircraft objects, which go stale. `Model.Consistent` states the invariant that ties the grid to the roster: every live aircraft stands on the cell that holds its id, and every id on the grid is a live aircraft standing there. Every action the interface can issue is proved to keep a consistent state consistent, except START_NEW_WAVE, whose spawned aircraft are a parameter, and RESET_GAME, whose new state comes from outside the reducer. The opponent turn as written can dispatch an action the reducer cannot take (see "## Findings"); the corrected turn keeps the state consistent.
- **Loops.** The loops of the source are methods with loop invariants, each proved equal to a specification function:
  - the breadth-first search for move highlights;
  - the scan for revival cells;
  - the visibility grid;
  - the placement do-while;
  - the running minima of the opponent's choices.
- **Randomness.** The random draws of an attack (dodge and critical hit) are inputs. The placement oracle is a function parameter with values in [0, 1).

## Model

| member | source | states |
|---|---|---|
| Constants.AircraftStats | src/lib/game-constants.ts:4-44 | every archetype's special costs at most its maximum energy, its critical multiplier is 1.5, and its health, range and speed are positive |
| Constants.FreshUnitAffordsSpecial | src/lib/game-constants.ts:5-43 | a fresh aircraft of any archetype can afford its special ability |
| Constants.FighterFastestAndLongestRange | src/lib/game-constants.ts:9-10 | the fighter is the fastest (speed 4) and longest-ranged (range 3) archetype; bomber and support have speed 3 and range 2 |
| ReducerFacts.TableDamages | src/lib/game-constants.ts:7-8 | fighter on fighter deals 10, bomber on fighter 30, support on fighter or support 1, support on bomber 5 |
| ReducerFacts.CriticalIsThreeHalves | src/app/game/page.tsx:231 | with a multiplier of 1.5, the floored critical damage is exactly `base * 3 / 2` |
| ReducerFacts.DamageOfTableStats | src/app/game/page.tsx:229-231 | with the table's multiplier a hit deals at least 1, and a critical hit deals `base * 3 / 2` |
| Reducer.BaseDamage | src/app/game/page.tsx:230 | the base damage is at least 1 and at least attack minus defense, and it is one of the two |
| Reducer.Damage | src/app/game/page.tsx:229-231 | a plain hit deals the base damage; with a multiplier of at least 1 a critical hit deals no less than the base, so every hit deals at least 1 |
| Reducer.LevelUp | src/app/game/page.tsx:246-251 | a level-up adds one level, 5 attack, 10 maximum health and 10 health, resets XP to 0, and changes nothing else |
| Reducer.ReviveHpIsQuarter | src/app/game/page.tsx:319 | flooring `maxHp * 0.25` is integer division of `maxHp` by 4 |
| ReducerFacts.ReviveHpInRange | src/app/game/page.tsx:319 | a revived aircraft's health lies between 0 and its maximum |
| Reducer.Restored | src/app/game/page.tsx:314-324 | a revived aircraft stands on the chosen cell with a quarter of its maximum health, no action points, no cooldown and no statuses; everything else is as it was destroyed |
| Reducer.Spent | src/app/game/page.tsx:333-344 | the reviving caster pays the ability cost and one action point, gets cooldown 5, and carries exactly one empowered tag beside its other statuses |
| Reducer.OneEmpowered | src/app/game/page.tsx:343 | dropping every empowered tag and appending one leaves exactly one |
| Reducer.Without | src/app/game/page.tsx:421 | filtering a status out keeps exactly the other statuses |
| Reducer.Lookup | src/app/game/page.tsx:309 | looking up an id finds an aircraft exactly when the id is present, and finds the stored one |
| Reducer.InReach | src/app/game/page.tsx:113-117 | the filtered list holds exactly the enemy aircraft within the given distance |
| Reducer.Relocated | src/app/game/page.tsx:161-165 | a moved aircraft is at the new cell with the given action points and is otherwise unchanged |
| Reducer.RefreshAll | src/app/game/page.tsx:403-424 | the change of turn refreshes every aircraft and keeps the roster's ids and their order |
| Reducer.XpGained | src/app/game/page.tsx:476-482 | XP is reported for exactly the player aircraft that have an initial snapshot |
| Records.Put | src/app/game/page.tsx:178 | storing an aircraft under an id replaces the entry, and appends the id to the order only when it is new |
| Records.Remove | src/app/game/page.tsx:267 | deleting an id removes exactly that entry |
| Records.PutBack | src/app/game/page.tsx:389 | writing an entry back over its replacement restores the record |
| Model.Recent | src/app/game/page.tsx:182 | the trimmed log holds at most 5 entries, the newest ones in order, and is unchanged when it was short enough |
| Model.Append | src/app/game/page.tsx:463 | after appending, the newest log entry is the new line, the log holds at most 5 entries, and a short log simply grows by one |
| Model.DropLast | src/app/game/page.tsx:393 | `slice(0, -1)` removes exactly the newest entry, and leaves an empty log empty |
| Model.Other | src/app/game/page.tsx:398 | the next player is never the current one |
| Model.UnitsOf | src/app/game/page.tsx:306 | the aircraft of one side are exactly the roster's values with that owner |
| Model.PlacementMove | src/app/game/page.tsx:157-159 | clearing the origin and writing the id on an empty target keeps the grid and roster in agreement |
| Model.PlacementRemove | src/app/game/page.tsx:266-268 | removing an aircraft from the roster and clearing its cell keeps them in agreement |
| Model.PlacementAdd | src/app/game/page.tsx:326-331 | adding an aircraft on an empty cell keeps them in agreement |
| Board.Place | src/app/game/page.tsx:157-159 | writing a cell changes that cell and no other |
| Board.MoveTargets | src/app/game/page.tsx:85-106 | the move targets are exactly the cells other than the origin that are reachable in at most `speed` steps through empty cells |
| Board.WithinDiamond | src/app/game/page.tsx:89-105 | a cell reachable in `steps` steps lies within Manhattan distance `steps` |
| Board.SearchComplete | src/app/game/page.tsx:89-105 | every cell reachable within the speed is discovered by the search, at no greater distance |
| Board.SearchStep | src/app/game/page.tsx:90-105 | one turn of the search loop keeps the search invariant and the progress measure, and shrinks the work left |
| Board.MoveHighlights | src/app/game/page.tsx:85-106 | the breadth-first search lists each cell at most once; every listed cell is empty, on the board and not the origin; and the list holds exactly the move targets |
| Board.OpenCellsInScanOrder | src/app/game/page.tsx:129-137 | the revival highlights are exactly the empty cells, listed row by row |
| ReducerFacts.SelectActionGuard | src/app/game/page.tsx:79-82 | SELECT_ACTION changes nothing without a selected aircraft, or when it has no action points |
| ReducerFacts.MoveHighlightsExactly | src/app/game/page.tsx:84-108 | choosing "move" highlights exactly the cells reachable within the speed, each empty and within Manhattan distance `speed` |
| ReducerFacts.AttackableExactly | src/app/game/page.tsx:111-118 | choosing "attack" lists exactly the live enemy aircraft within the range, one less under Thunderstorm, each once |
| ReducerFacts.AttackableSound | src/app/game/page.tsx:113-117 | every listed id is an enemy in reach |
| ReducerFacts.AttackableComplete | src/app/game/page.tsx:113-117 | every enemy in reach is listed |
| ReducerFacts.SelectActionKeepsBoard | src/app/game/page.tsx:78-149 | SELECT_ACTION changes only the chosen action and the highlight lists |
| ReducerFacts.SelectActionKeepsConsistent | src/app/game/page.tsx:78-149 | SELECT_ACTION keeps a consistent state consistent |
| ReducerFacts.SelectAircraftKeepsConsistent | src/app/game/page.tsx:63-76 | SELECT_AIRCRAFT keeps a consistent state consistent |
| Routing.ClickOwnUnitSelects | src/app/game/page.tsx:63-76 | on the player's turn a click on one of their aircraft selects it |
| ReducerFacts.MoveGuard | src/app/game/page.tsx:152-155 | MOVE_AIRCRAFT changes nothing unless an aircraft is selected, "move" is chosen and it has action points |
| ReducerFacts.MoveEffect | src/app/game/page.tsx:151-184 | a move writes the aircraft's id on the target and clears its origin, leaves every other cell alone, costs exactly one action point, records the last move and logs at most five lines ending with the move |
| ReducerFacts.MoveKeepsConsistent | src/app/game/page.tsx:151-184 | a move onto an empty cell keeps a consistent state consistent |
| ReducerFacts.UndoGuard | src/app/game/page.tsx:369-374 | UNDO_MOVE changes nothing without a last move, or when its aircraft no longer stands on the target cell |
| ReducerFacts.UndoTakesBack | src/app/game/page.tsx:376-393 | an undo puts the aircraft back on its origin cell and returns one action point |
| ReducerFacts.LogTakenBack | src/app/game/page.tsx:393 | an undo drops the newest log line: a log that was short gets its old contents back, a full one loses its oldest line |
| ReducerFacts.GridRoundTrip | src/app/game/page.tsx:157-159 | moving an aircraft onto an empty cell and back restores the grid |
| ReducerFacts.MoveThenUndo | src/app/game/page.tsx:151-184 | a move followed by an undo restores the grid and the roster, clears the last move, and restores the log if it held fewer than 5 lines |
| ReducerFacts.MoveThenUndoForgetsOldestLine | src/app/game/page.tsx:182 | with five log lines, the move-undo round trip loses the oldest line |
| ReducerFacts.UndoKeepsConsistent | src/app/game/page.tsx:368-395 | UNDO_MOVE keeps a consistent state consistent |
| CombatFacts.AttackGuard | src/app/game/page.tsx:187-190 | ATTACK_AIRCRAFT changes nothing unless an aircraft is selected, "attack" is chosen and it has action points |
| CombatFacts.DodgeOutcome | src/app/game/page.tsx:215-227 | a dodged attack only charges the attacker one action point, clears the chosen action, the attackable list and the last move, and logs the dodge |
| CombatFacts.AttackDodged | src/app/game/page.tsx:204-227 | a dodge changes no health, XP, grid, destroyed list or damage counter |
| CombatFacts.HitOutcome | src/app/game/page.tsx:229-294 | a hit adds the damage to the player's dealt or taken counter; a survivor loses exactly the damage in health, and a destroyed defender leaves the roster for the destroyed list with health 0 and its cell is cleared |
| CombatFacts.AttackHitAttacker | src/app/game/page.tsx:240-256 | a hit charges the attacker one action point and grants XP equal to the damage, or levels it up when XP reaches `100 * level` |
| CombatFacts.AttackHitDefender | src/app/game/page.tsx:264-278 | the defender survives with exactly the damage taken from its health or is destroyed, and no other aircraft changes |
| CombatFacts.AttackKeepsConsistent | src/app/game/page.tsx:186-294 | an attack on an enemy keeps a consistent state consistent |
| CombatFacts.SpecialGuard | src/app/game/page.tsx:297-312 | SPECIAL_AIRCRAFT changes nothing unless every revival condition holds |
| CombatFacts.ReviveOutcome | src/app/game/page.tsx:306-362 | a revival restores the chosen aircraft on the cell, pays the caster's cost, clears the highlights and the last move, and logs the revival |
| CombatFacts.ReviveEffect | src/app/game/page.tsx:306-346 | the revived aircraft was destroyed and is the one named, or the first destroyed friend; it stands on the cell with a quarter of its health; the caster is spent and empowered once; nobody else changes |
| CombatFacts.ChosenIsDestroyed | src/app/game/page.tsx:308-310 | the aircraft chosen for revival is a destroyed one, not live, and belongs to the current player when none was named |
| CombatFacts.SpecialKeepsConsistent | src/app/game/page.tsx:296-366 | a revival onto an empty cell keeps a consistent state consistent |
| TurnFacts.RefreshEffect | src/app/game/page.tsx:403-424 | at the change of turn, an incoming aircraft gets full action points and 10 energy up to its maximum; an outgoing one counts its cooldown down to no lower than 0 and loses empowered |
| TurnFacts.EndTurnEffect | src/app/game/page.tsx:397-467 | END_TURN passes the turn, counts a new turn only when the player is next, refreshes every aircraft, clears selection and highlights, resets the timer, logs the new turn, and changes nothing else |
| TurnFacts.EndTurnVisibility | src/app/game/page.tsx:426-450 | the stored visibility is every cell when the opponent is next, else exactly the cells within `range + 2` of a live player aircraft |
| TurnFacts.RoundOfTurns | src/app/game/page.tsx:397-467 | two END_TURNs give the turn back, count one turn, tick every cooldown once, drop empowered and refill the first side's action points |
| TurnFacts.EndTurnKeepsConsistent | src/app/game/page.tsx:397-467 | END_TURN keeps a consistent state consistent |
| TurnFacts.TickExpires | src/app/game/page.tsx:527-557 | when the timer runs out, TICK_TIMER makes END_TURN's updates with its own log line, and leaves the visibility grid unchanged |
| TurnFacts.TickCountsDown | src/app/game/page.tsx:525-559 | outside play TICK_TIMER does nothing; otherwise it only takes one second off the timer |
| TurnFacts.TickKeepsConsistent | src/app/game/page.tsx:524-560 | TICK_TIMER keeps a consistent state consistent |
| TurnFacts.XpGainedOfRoster | src/app/game/page.tsx:476-482 | XP is reported for exactly the live player aircraft with an initial snapshot, and is the XP each earned since |
| TurnFacts.SetGameOverEffect | src/app/game/page.tsx:469-499 | SET_GAME_OVER ends the game with the winner; the summary lists the live player aircraft, counts each side's destroyed aircraft and the turns and damage, and reports XP gained; it logs the outcome and leaves the board alone |
| TurnFacts.SetGameOverKeepsConsistent | src/app/game/page.tsx:469-499 | SET_GAME_OVER keeps a consistent state consistent |
| TurnFacts.NextWaveValues | src/app/game/page.tsx:564 | the next wave after an unset wave (0) is 2, otherwise the wave number plus one |
| TurnFacts.StartNewWaveEffect | src/app/game/page.tsx:562-574 | START_NEW_WAVE does nothing outside survival mode; in it, it moves to the next wave and logs it |
| Vision.Seen | src/app/game/page.tsx:634-642 | a cell is seen exactly when it lies within `range + 2` of one of the given aircraft |
| Vision.VisionMask | src/app/game/page.tsx:625-654 | the mask is all true when everything is revealed, else true exactly on the seen cells |
| Vision.MarkDisk | src/app/game/page.tsx:634-642 | marking one aircraft's sight sets exactly the cells within its reach and keeps every cell already set |
| Vision.ComputeVisibility | src/app/game/page.tsx:625-654 | the filled visibility array equals the mask |
| Vision.MaskedGrid | src/app/game/page.tsx:657-671 | during the opponent's turn the shown grid is the grid; otherwise only the visible cells show their aircraft |
| Routing.CellClickMeans | src/app/game/page.tsx:712-733 | a click does nothing off the player's turn, after the game or during the tutorial. Otherwise it selects an own aircraft on that cell, moves onto a highlighted empty cell, attacks a listed enemy on that cell, or revives onto a highlighted empty cell with a support selected |
| Routing.CellClickKeepsConsistent | src/app/game/page.tsx:712-733 | every action a click dispatches can be applied and keeps a consistent state consistent |
| Routing.PressTwiceCancels | src/app/game/page.tsx:735-742 | pressing an action button once chooses that action; pressing it again cancels it and clears the highlights, keeping the selection |
| Routing.ActionSelectKeepsConsistent | src/app/game/page.tsx:735-742 | the action buttons keep a consistent state consistent |
| Routing.EndTurnPressKeepsConsistent | src/app/game/page.tsx:744-747 | End Turn keeps a consistent state consistent |
| Routing.UndoPressKeepsConsistent | src/app/game/page.tsx:749-752 | Undo keeps a consistent state consistent |
| Routing.TimerTickKeepsConsistent | src/app/game/page.tsx:684-700 | the timer's tick keeps a consistent state consistent |
| Routing.EmptyUnitsOf | src/app/game/page.tsx:762-763 | a side's filtered list is empty exactly when no live aircraft belongs to it |
| Routing.GameOverCheckDecides | src/app/game/page.tsx:760-786 | while playing: defeat exactly when the player has no aircraft; otherwise, with no enemy left, victory, or the next wave in survival mode; nothing otherwise or outside play |
| Routing.GameOverIsFinal | src/app/game/page.tsx:469-499 | once the game is over, the check, the timer and clicks dispatch nothing more |
| Dispatch.RunAppend | src/app/game/page.tsx:61-579 | dispatching two batches of actions one after the other is dispatching them together |
| Setup.DrawAtHome | src/lib/game-utils.ts:15-17 | with the random source in [0, 1), every draw lands on the board in the side's home band: the bottom three rows for the player, the top three for the opponent |
| Setup.FirstFree | src/lib/game-utils.ts:26-30 | a position found by the retry loop is free and in the side's home band |
| Setup.RandomPosition | src/lib/game-utils.ts:13-34 | `getRandomPosition` returns the first free position the draws reach |
| Setup.Deploy | src/lib/game-utils.ts:43-96 | the six positions are pairwise distinct, in their sides' home bands, and not already occupied |
| Setup.Fresh | src/lib/game-utils.ts:46-62 | a new aircraft has its slot's id, archetype, owner and position, and valid stats |
| Setup.InitialRoster | src/lib/game-utils.ts:37-41 | the roster holds p-f1, p-b1, p-s1, o-f1, o-b1 and o-s1 in that order, each freshly built on its drawn cell |
| Setup.InitialState | src/lib/game-utils.ts:98-112 | the game starts on the player's turn 1, playing, with no selection, highlights, last move or destroyed aircraft. Every aircraft has full health and energy, level 1, no XP, no cooldown, full action points and has not acted; only the opponent fighter is stunned |
| Setup.InitialConsistent | src/lib/game-utils.ts:63-64 | the initial grid and roster agree, so the initial state is consistent |
| Setup.DeployedConsistent | src/lib/game-utils.ts:5-113 | whenever placement succeeds, the state built from it is consistent |
| Setup.PlaceAll | src/lib/game-utils.ts:43-96 | the two placement loops find the drawn positions and fill the grid and roster with the fresh aircraft |
| Setup.CreateInitialState | src/lib/game-utils.ts:5-113 | the constructed state exists exactly when placement succeeds, and is then the initial state for those positions |
| Opponent.FirstMinIsFirstMinimum | src/lib/game-utils.ts:155-161 | the running minimum with a strict `<` finds nothing exactly when no entry qualifies; otherwise it picks a qualifying entry whose key is no larger than any other's and strictly smaller than every earlier one's |
| Opponent.NearestTarget | src/lib/game-utils.ts:155-161 | the attack-target scan finds the first nearest player aircraft in reach |
| Opponent.HealTarget | src/lib/game-utils.ts:127-135 | the heal scan finds the first wounded friend in range with the lowest health ratio |
| Opponent.BestMove | src/lib/game-utils.ts:188-206 | the nested offset scan finds the specified best cell |
| Opponent.Visit | src/lib/game-utils.ts:193-203 | after one more offset, the kept cell and distance are still those of the first closest landing cell among the offsets visited |
| Opponent.ScanRow | src/lib/game-utils.ts:192-205 | after row `i`, the kept cell and distance are those of the first closest landing cell of every row scanned so far |
| Opponent.BestCellMeans | src/lib/game-utils.ts:188-206 | no cell is found exactly when no empty cell lies within the speed; otherwise the cell found is empty and within the speed, no other such cell is closer to the goal, and on ties it comes first in the scan order |
| Opponent.HealChoice | src/lib/game-utils.ts:122-146 | a support heals exactly when it has not attacked, is off cooldown, can pay and has a wounded friend in range; the friend chosen is the first one with the lowest health ratio |
| Opponent.StrikeChoice | src/lib/game-utils.ts:150-172 | when it does not heal and has not attacked, an aircraft attacks exactly when a player aircraft is within its range; the target is the first nearest one in range |
| Opponent.AdvanceChoice | src/lib/game-utils.ts:175-218 | otherwise it moves exactly when it has not moved, a player aircraft remains and an empty cell lies within its speed |
| Opponent.AdvanceTarget | src/lib/game-utils.ts:176-206 | the cell it moves to is the best cell towards the first nearest player aircraft |
| Opponent.Choose | src/lib/game-utils.ts:119-218 | the loop body's decision for one aircraft is the specified decision |
| Opponent.Intents | src/lib/game-utils.ts:137-215 | holding dispatches nothing; any other decision dispatches exactly three actions |
| Opponent.HealIsIdle | src/lib/game-utils.ts:143 | the heal dispatches a special action with no cell, which leaves the roster, grid, log and turn untouched |
| Opponent.DecideFeasible | src/lib/game-utils.ts:119-218 | on the opponent's turn on a consistent state, each decision names the acting aircraft, and an attack names a live player aircraft while a move names an empty cell |
| Opponent.DecisionApplies | src/lib/game-utils.ts:137-215 | the actions of a single decision, dispatched on the live state, can all be applied, keep the state consistent and keep the turn |
| OpponentTurn.OpponentAI | src/lib/game-utils.ts:115-220 | the AI issues, in roster order, each opponent aircraft's decision taken on the state it was handed |
| OpponentTurn.ScriptGrows | src/lib/game-utils.ts:119-218 | each aircraft appends its own actions after those of the aircraft before it |
| OpponentTurn.StaleTargetCrashes | src/app/game/page.tsx:804 | when the first two opponent aircraft both choose the same player aircraft on the stale snapshot, and the first attack destroys it, the second attack names a missing defender, so the turn as written cannot be applied |
| OpponentTurn.Act | src/lib/game-utils.ts:119-218 | the actions dispatched for one aircraft are exactly those of its decision on the live state; they can all be applied, the state stays consistent and the opponent keeps the turn |
| OpponentTurn.LiveTurn | src/app/game/page.tsx:799-811 | the dispatched actions are exactly `LiveScript`: each aircraft of the turn's start that is still live, in order, decides on the state the earlier ones left, and END_TURN follows; every action can be applied, the state stays consistent and the player moves next |
| OpponentTurn.EndsTurn | src/app/game/page.tsx:806 | the final END_TURN of the opponent's turn keeps the state consistent and hands the turn to the player |

## Left out

- Presentation is not modelled: animations and their payloads (SHOW_ANIMATION, CLEAR_ANIMATION), audio, toasts and the localStorage win/loss counters of the game-over check. UPDATE_STATUS_EFFECTS returns the state unchanged, so it adds nothing.
- React effects, `setInterval` and the `setTimeout` pauses of the opponent's turn are not modelled. A turn is a sequence of actions applied one after another (`Dispatch.Run`). RESET_GAME is modelled only through `Setup.CreateInitialState`.
- `Math.random` is not modelled. The dodge and critical-hit draws are inputs (`Reducer.Draws`), so the dodge formula with weather, speed and level bonuses, `critChance` and `dodgeChance` take no part in any outcome.
- The `Math.sin`-based `pseudoRandom` is replaced by an oracle parameter `rand` with values in [0, 1).
- Setup.FirstFree: the do-while retries until it finds a free cell. The model retries at most `fuel` times and returns nothing when the fuel runs out, so it does not prove that the loop ends.
- `spawnWave` is not shown in the source. Its result and `TURN_TIME_LIMIT` are parameters (`Reducer.Env`).
- TurnFacts.StartNewWaveEffect: it states the wave number, the log and the turn, but not the spawned aircraft, because `spawnWave` is a parameter.
- The shown `createInitialState` sets no action points, weather, mode, wave number, timer, log, damage counters or initial snapshot, although the reducer reads them. The action points, weather, mode, wave number and timer come from a `Setup.Config` parameter, and both action-point fields take `cfg.actionPoints`. `Setup.Initial` fixes the rest: an empty log, both damage counters at 0, and the initial snapshot equal to the created roster. The state type file is out of step with the reducer, so the fields follow the reducer.
- Log lines are abstract entries (`Model.LogEntry`). Their wording and percentages are not modelled. ATTACK_AIRCRAFT's several lines per hit (critical, level-up, destroyed) are kept in order.
- `hasMoved` and `hasAttacked` are read by the AI and the buttons but never set by the reducer. The model keeps them as plain fields that nothing changes.
- The stunned status is set at creation but never read by the reducer, so it has no effect in the model either.
- Unit lookups by id crash in the source when the id is missing. In the model they are `requires` clauses (`Reducer.Defined`). The one deliberate missing-id path, the revive lookup, is modelled as a no-op.
- Opponent.HealthPercent divides by `maxHp`. The model computes it as an exact real, not a floating-point double, and treats an aircraft with `maxHp == 0` as not wounded. A consistent state has no such aircraft.
- Opponent.HealIsIdle: the AI's heal dispatches SPECIAL_AIRCRAFT with a target and no cell. The reducer only revives and needs a cell, so the heal changes nothing. The model states this rather than inventing a heal.
- Vision.ComputeVisibility and Vision.MarkDisk fill a fresh two-dimensional array, as the source does. Their contracts use `fresh` and `old`. The reducer stores the equivalent `Vision.VisionMask` value.
- Routing.TimerTick: the timer ticks on both sides' turns, as the code does (page.tsx:684-700). It is not suspended while the opponent plays.
- The strategy-advice collaborator (an external language-model call) and all other pages and components are not part of this model.

## Findings

| source | as written | input that shows it | evidently intended | confidence | as-written member | corrected member |
|---|---|---|---|---|---|---|
| src/app/game/page.tsx:804 with src/lib/game-utils.ts:116-117 | `opponentAI` takes its decisions on the state at the turn's start. An aircraft destroyed earlier in the same turn can still be chosen as a target, and the reducer then reads the missing defender (page.tsx:192, 202) | the first two opponent aircraft both choose the same player aircraft, and each has action points. The first attack is not dodged and deals at least the target's health | decide each aircraft's action on the live state after the previous dispatches | not executed | OpponentTurn.StaleTargetCrashes | OpponentTurn.LiveTurn |
