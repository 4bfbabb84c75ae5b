/**
 * `createInitialState` (src/lib/game-utils.ts:5-113): three aircraft a
 * side, each on a cell of its own side's three home rows, drawn from a
 * seeded pseudo-random generator until a free cell turns up. The
 * generator is an input (`rand`, any function into [0, 1)); the search
 * for a free cell gives up after `fuel` draws.
 */
module Setup {
  import opened Common
  import opened Records
  import opened Constants
  import opened Board
  import opened Model

  /** One entry of the two rosters of game-utils.ts:37-41 and :68-72, with the seed its placement starts from (:44, :75). */
  datatype Slot = Slot(id: Id, kind: Kind, owner: Player, seed: int)

  /** The player's fighter, bomber and support (seeds 1, 2, 3), then the opponent's (seeds 100, 200, 300). */
  function Slots(): (r: seq<Slot>)
    ensures |r| == 6
  {
    [Slot("p-f1", Fighter, Human, 1), Slot("p-b1", Bomber, Human, 2), Slot("p-s1", Support, Human, 3),
     Slot("o-f1", Fighter, Opponent, 100), Slot("o-b1", Bomber, Opponent, 200), Slot("o-s1", Support, Opponent, 300)]
  }

  /**
   * What the shown `createInitialState` leaves unset and the rest of the
   * game reads: the action points every aircraft gets, the weather, the
   * mode, the wave number and the turn time limit.
   */
  datatype Config = Config(actionPoints: nat, weather: Weather, mode: Mode, waveNumber: int, turnTimeLimit: int)

  /** `pseudoRandom` yields `x - Math.floor(x)`, a value in [0, 1). */
  ghost predicate UnitInterval(rand: int -> real) {
    forall n :: 0.0 <= rand(n) < 1.0
  }

  /** The first of a side's home rows: the bottom three for the player, the top three for the opponent (game-utils.ts:15-17). */
  function HomeRow(owner: Player): int {
    if owner == Human then Height - 3 else 0
  }

  predicate InHome(owner: Player, p: Pos) {
    InBounds(p) && HomeRow(owner) <= p.y <= HomeRow(owner) + 2
  }

  /** One draw of `getRandomPosition` (game-utils.ts:28-29) after the seed became `seed`. */
  function Draw(rand: int -> real, owner: Player, seed: int): Pos {
    Pos((rand(seed * 10) * Width as real).Floor, (rand(seed * 100) * 3.0).Floor + HomeRow(owner))
  }

  /** `Math.floor(r * n)` of an `r` in [0, 1) lies in [0, n). */
  lemma FloorBelow(r: real, n: int)
    requires 0.0 <= r < 1.0 && n > 0
    ensures 0 <= (r * n as real).Floor < n
  {
    assert r * n as real < n as real;
  }

  lemma DrawAtHome(rand: int -> real, owner: Player, seed: int)
    requires UnitInterval(rand)
    ensures InHome(owner, Draw(rand, owner, seed))
  {
    FloorBelow(rand(seed * 10), Width);
    FloorBelow(rand(seed * 100), 3);
  }

  /**
   * The do-while of game-utils.ts:26-30: bump the seed, draw, and retry
   * while the cell is taken; `None` once `fuel` draws all hit taken
   * cells. A cell found is free and at home.
   */
  function FirstFree(occupied: set<Pos>, owner: Player, seed: int, rand: int -> real, fuel: nat): (r: Option<Pos>)
    requires UnitInterval(rand)
    ensures r.Some? ==> r.value !in occupied && InHome(owner, r.value)
    decreases fuel
  {
    if fuel == 0 then None
    else
      var p := Draw(rand, owner, seed + 1);
      DrawAtHome(rand, owner, seed + 1);
      if p !in occupied then Some(p) else FirstFree(occupied, owner, seed + 1, rand, fuel - 1)
  }

  /** `getRandomPosition` (game-utils.ts:13-34). */
  method RandomPosition(occupied: set<Pos>, owner: Player, seed: int, rand: int -> real, fuel: nat) returns (p: Option<Pos>)
    requires UnitInterval(rand)
    ensures p == FirstFree(occupied, owner, seed, rand, fuel)
  {
    var randomSeed := seed;
    var left := fuel;
    while left > 0
      invariant FirstFree(occupied, owner, seed, rand, fuel) == FirstFree(occupied, owner, randomSeed, rand, left)
      decreases left
    {
      randomSeed := randomSeed + 1;
      var q := Draw(rand, owner, randomSeed);
      if q !in occupied {
        return Some(q);
      }
      left := left - 1;
    }
    return None;
  }

  /** The cells the slots get, one after the other, each avoiding the earlier ones. */
  function Deploy(slots: seq<Slot>, occupied: set<Pos>, rand: int -> real, fuel: nat): (r: Option<seq<Pos>>)
    requires UnitInterval(rand)
    ensures r.Some? ==> |r.value| == |slots|
    ensures r.Some? ==> forall i | 0 <= i < |slots| :: r.value[i] !in occupied && InHome(slots[i].owner, r.value[i])
    ensures r.Some? ==> forall i, j | 0 <= i < j < |slots| :: r.value[i] != r.value[j]
  {
    if slots == [] then Some([])
    else
      match FirstFree(occupied, slots[0].owner, slots[0].seed, rand, fuel)
      case None => None
      case Some(p) =>
        match Deploy(slots[1..], occupied + {p}, rand, fuel)
        case None => None
        case Some(ps) => Some([p] + ps)
  }

  /** A freshly built aircraft (game-utils.ts:46-62, :77-93): full health and energy, level 1, no XP; only the opponent's fighter starts stunned. */
  function Fresh(slot: Slot, p: Pos, cfg: Config): (u: Unit)
    ensures u.id == slot.id && u.owner == slot.owner && u.kind == slot.kind && u.position == p
    ensures UnitOk(u)
  {
    var b := AircraftStats(slot.kind);
    Unit(slot.id, slot.owner, slot.kind,
         Stats(b.maxHp, b.maxHp, b.attack, b.defense, b.range, b.speed, 1, 0, b.maxEnergy, b.maxEnergy,
               cfg.actionPoints, cfg.actionPoints, b.specialAbilityCost, b.critChance, b.critDamage, b.dodgeChance),
         p, false, false, 0, if slot.owner == Opponent && slot.kind == Fighter then [Stunned] else [])
  }

  function EmptyGrid(): (g: Grid)
    ensures Shaped(g) && forall p | InBounds(p) :: At(g, p).None?
  {
    seq(Height, y => seq(Width, x => None))
  }

  /** The grid after the first `|slots|` aircraft were placed (game-utils.ts:64, :95). */
  function Layout(slots: seq<Slot>, ps: seq<Pos>): (g: Grid)
    requires |ps| == |slots| && forall i | 0 <= i < |ps| :: InBounds(ps[i])
    ensures Shaped(g)
  {
    if slots == [] then EmptyGrid()
    else
      var n := |slots| - 1;
      Place(Layout(slots[..n], ps[..n]), ps[n], Some(slots[n].id))
  }

  /** The roster after the first `|slots|` aircraft were added (game-utils.ts:63, :94). */
  function Fleet(slots: seq<Slot>, ps: seq<Pos>, cfg: Config): Record<Id, Unit>
    requires |ps| == |slots|
  {
    if slots == [] then Record([], map[])
    else
      var n := |slots| - 1;
      Put(Fleet(slots[..n], ps[..n], cfg), slots[n].id, Fresh(slots[n], ps[n], cfg))
  }

  /** The state `createInitialState` returns (game-utils.ts:98-112) for the cells `ps`, with the other fields from `cfg`. */
  function Initial(ps: seq<Pos>, cfg: Config): GameState
    requires |ps| == 6 && forall i | 0 <= i < 6 :: InBounds(ps[i])
  {
    var units := Fleet(Slots(), ps, cfg);
    GameState(Layout(Slots(), ps), units, Record([], map[]), Human, Playing, None, None, NoAction, {}, [], [],
              1, None, [], cfg.turnTimeLimit, None, cfg.weather, cfg.mode, cfg.waveNumber, 0, 0, units.entries, None)
  }

  // ---------------------------------------------------------------- the initial state is consistent

  /** The roster after placing aircraft with distinct ids lists their ids in order. */
  lemma {:induction false} FleetKeys(slots: seq<Slot>, ps: seq<Pos>, cfg: Config)
    requires |ps| == |slots|
    requires forall i, j | 0 <= i < j < |slots| :: slots[i].id != slots[j].id
    ensures var units := Fleet(slots, ps, cfg);
            && Valid(units) && |units.keys| == |slots|
            && (forall i | 0 <= i < |slots| :: units.keys[i] == slots[i].id)
  {
    if slots != [] {
      var n := |slots| - 1;
      var front, fps := slots[..n], ps[..n];
      var e := Fleet(front, fps, cfg);
      var k := slots[n].id;
      assert forall i | 0 <= i < n :: front[i] == slots[i];
      FleetKeys(front, fps, cfg);
      assert k !in e.keys by {
        forall i | 0 <= i < |e.keys|
          ensures e.keys[i] != k
        {
          assert e.keys[i] == slots[i].id;
        }
      }
      assert Fleet(slots, ps, cfg).keys == e.keys + [k];
    }
  }

  /** The roster after placing aircraft with distinct ids holds each, fresh, under its id. */
  lemma {:induction false} FleetEntries(slots: seq<Slot>, ps: seq<Pos>, cfg: Config)
    requires |ps| == |slots|
    requires forall i, j | 0 <= i < j < |slots| :: slots[i].id != slots[j].id
    ensures var units := Fleet(slots, ps, cfg);
            forall i | 0 <= i < |slots| :: slots[i].id in units.entries && units.entries[slots[i].id] == Fresh(slots[i], ps[i], cfg)
  {
    if slots != [] {
      var n := |slots| - 1;
      var front, fps := slots[..n], ps[..n];
      FleetEntries(front, fps, cfg);
      var e := Fleet(front, fps, cfg).entries;
      var units := Fleet(slots, ps, cfg).entries;
      assert units == e[slots[n].id := Fresh(slots[n], ps[n], cfg)];
      forall i | 0 <= i < n
        ensures slots[i].id in units && units[slots[i].id] == Fresh(slots[i], ps[i], cfg)
      {
        assert front[i] == slots[i] && fps[i] == ps[i];
      }
    }
  }

  /** The grid after placing aircraft on distinct cells names each on its cell and leaves every other cell empty. */
  lemma {:induction false} LayoutNames(slots: seq<Slot>, ps: seq<Pos>)
    requires |ps| == |slots| && forall i | 0 <= i < |ps| :: InBounds(ps[i])
    requires forall i, j | 0 <= i < j < |ps| :: ps[i] != ps[j]
    ensures forall i | 0 <= i < |ps| :: At(Layout(slots, ps), ps[i]) == Some(slots[i].id)
    ensures forall q | InBounds(q) && q !in ps :: At(Layout(slots, ps), q).None?
  {
    if slots != [] {
      var n := |slots| - 1;
      LayoutNames(slots[..n], ps[..n]);
      forall i | 0 <= i < n
        ensures At(Layout(slots, ps), ps[i]) == Some(slots[i].id)
      {
        assert slots[..n][i] == slots[i] && ps[..n][i] == ps[i];
      }
      forall q | InBounds(q) && q !in ps
        ensures At(Layout(slots, ps), q).None?
      {
        assert q !in ps[..n];
      }
    }
  }

  /** Aircraft with distinct ids on distinct cells: the grid and the roster are in step. */
  lemma LayoutMatchesFleet(slots: seq<Slot>, ps: seq<Pos>, cfg: Config)
    requires |ps| == |slots| && forall i | 0 <= i < |ps| :: InBounds(ps[i])
    requires forall i, j | 0 <= i < j < |slots| :: slots[i].id != slots[j].id && ps[i] != ps[j]
    ensures Rosters(Layout(slots, ps), Fleet(slots, ps, cfg), Record([], map[]))
  {
    FleetKeys(slots, ps, cfg);
    FleetShape(slots, ps, cfg);
    LayoutPlacement(slots, ps, cfg);
  }

  /** Every aircraft of the roster is one of the slots, fresh, under its own id, on the board. */
  lemma FleetShape(slots: seq<Slot>, ps: seq<Pos>, cfg: Config)
    requires |ps| == |slots| && forall i | 0 <= i < |ps| :: InBounds(ps[i])
    requires forall i, j | 0 <= i < j < |slots| :: slots[i].id != slots[j].id
    ensures var units := Fleet(slots, ps, cfg);
            && KeyedById(units) && OnBoard(units.entries) && AllOk(units.entries)
            && forall k | k in units.entries ::
                 exists i | 0 <= i < |slots| :: k == slots[i].id && units.entries[k] == Fresh(slots[i], ps[i], cfg)
  {
    var units := Fleet(slots, ps, cfg);
    FleetKeys(slots, ps, cfg);
    FleetEntries(slots, ps, cfg);
    forall k | k in units.entries
      ensures exists i | 0 <= i < |slots| :: k == slots[i].id && units.entries[k] == Fresh(slots[i], ps[i], cfg)
    {
      var i :| 0 <= i < |units.keys| && units.keys[i] == k;
    }
  }

  lemma LayoutPlacement(slots: seq<Slot>, ps: seq<Pos>, cfg: Config)
    requires |ps| == |slots| && forall i | 0 <= i < |ps| :: InBounds(ps[i])
    requires forall i, j | 0 <= i < j < |slots| :: slots[i].id != slots[j].id && ps[i] != ps[j]
    ensures OnBoard(Fleet(slots, ps, cfg).entries) && Placement(Layout(slots, ps), Fleet(slots, ps, cfg).entries)
  {
    FleetShape(slots, ps, cfg);
    FleetEntries(slots, ps, cfg);
    LayoutNames(slots, ps);
    PlacedBySlots(Layout(slots, ps), Fleet(slots, ps, cfg).entries, slots, ps, cfg);
  }

  /** A grid naming each slot on its cell and a roster holding each slot fresh on that cell match. */
  lemma PlacedBySlots(g: Grid, entries: map<Id, Unit>, slots: seq<Slot>, ps: seq<Pos>, cfg: Config)
    requires Shaped(g) && |ps| == |slots| && forall i | 0 <= i < |ps| :: InBounds(ps[i])
    requires forall i | 0 <= i < |ps| :: At(g, ps[i]) == Some(slots[i].id)
    requires forall q | InBounds(q) && q !in ps :: At(g, q).None?
    requires forall i | 0 <= i < |slots| :: slots[i].id in entries && entries[slots[i].id] == Fresh(slots[i], ps[i], cfg)
    requires OnBoard(entries)
    requires forall k | k in entries ::
               exists i | 0 <= i < |slots| :: k == slots[i].id && entries[k] == Fresh(slots[i], ps[i], cfg)
    ensures Placement(g, entries)
  {
    forall k: Id | k in entries
      ensures At(g, entries[k].position) == Some(k)
    {
      var i :| 0 <= i < |slots| && k == slots[i].id && entries[k] == Fresh(slots[i], ps[i], cfg);
    }
    forall p | InBounds(p) && At(g, p).Some?
      ensures At(g, p).value in entries && entries[At(g, p).value].position == p
    {
      var i :| 0 <= i < |ps| && ps[i] == p;
    }
  }

  /** The six roster entries have six different ids. */
  lemma SlotIdsDistinct()
    ensures forall i, j | 0 <= i < j < |Slots()| :: Slots()[i].id != Slots()[j].id
  {
    var s := Slots();
    assert s[0].id[0] == s[1].id[0] == s[2].id[0] == 'p' && s[3].id[0] == s[4].id[0] == s[5].id[0] == 'o';
    assert s[0].id[2] == s[3].id[2] == 'f' && s[1].id[2] == s[4].id[2] == 'b' && s[2].id[2] == s[5].id[2] == 's';
  }

  /** The initial state is consistent: the six aircraft stand on six distinct cells, each cell naming its aircraft. */
  lemma InitialConsistent(ps: seq<Pos>, cfg: Config)
    requires |ps| == 6 && forall i | 0 <= i < 6 :: InBounds(ps[i])
    requires forall i, j | 0 <= i < j < 6 :: ps[i] != ps[j]
    ensures Consistent(Initial(ps, cfg))
  {
    SlotIdsDistinct();
    LayoutMatchesFleet(Slots(), ps, cfg);
  }

  /** The initial roster lists the player's fighter, bomber and support, then the opponent's, each fresh on its cell. */
  lemma InitialRoster(ps: seq<Pos>, cfg: Config)
    requires |ps| == 6 && forall i | 0 <= i < 6 :: InBounds(ps[i])
    ensures Initial(ps, cfg).units.keys == ["p-f1", "p-b1", "p-s1", "o-f1", "o-b1", "o-s1"]
    ensures forall i | 0 <= i < 6 ::
              Slots()[i].id in Initial(ps, cfg).units.entries && Initial(ps, cfg).units.entries[Slots()[i].id] == Fresh(Slots()[i], ps[i], cfg)
  {
    SlotIdsDistinct();
    FleetKeys(Slots(), ps, cfg);
    FleetEntries(Slots(), ps, cfg);
    SlotOrder(Fleet(Slots(), ps, cfg).keys);
  }

  /**
   * The initial state: the player moves first, in turn 1, with nothing
   * selected, highlighted or undoable and nothing destroyed; every aircraft
   * is at full health and energy, level 1, without XP, cooldown, moves or
   * attacks, and only the opponent's fighter carries a status, `Stunned`.
   */
  lemma InitialState(ps: seq<Pos>, cfg: Config)
    requires |ps| == 6 && forall i | 0 <= i < 6 :: InBounds(ps[i])
    ensures var s := Initial(ps, cfg);
            && s.currentPlayer == Human && s.phase == Playing && s.winner.None? && s.turnNumber == 1
            && s.selected.None? && s.selectedAction == NoAction && s.highlights == {}
            && s.attackable == [] && s.supportable == [] && s.lastMove.None?
            && s.destroyed.entries == map[] && s.initialUnits == s.units.entries
            && forall k | k in s.units.entries :: FreshlyBuilt(s.units.entries[k], cfg)
  {
    SlotIdsDistinct();
    FleetShape(Slots(), ps, cfg);
    AllFresh(Fleet(Slots(), ps, cfg).entries, Slots(), ps, cfg);
  }

  /** What game-utils.ts:46-62 and :77-93 give every new aircraft. */
  ghost predicate FreshlyBuilt(u: Unit, cfg: Config) {
    var b := AircraftStats(u.kind);
    && u.stats.hp == u.stats.maxHp == b.maxHp && u.stats.xp == 0 && u.stats.level == 1
    && u.stats.energy == u.stats.maxEnergy == b.maxEnergy
    && u.stats.actionPoints == u.stats.maxActionPoints == cfg.actionPoints
    && u.cooldown == 0 && !u.hasMoved && !u.hasAttacked
    && u.statuses == (if u.owner == Opponent && u.kind == Fighter then [Stunned] else [])
  }

  lemma AllFresh(entries: map<Id, Unit>, slots: seq<Slot>, ps: seq<Pos>, cfg: Config)
    requires |ps| == |slots|
    requires forall k | k in entries ::
               exists i | 0 <= i < |slots| :: k == slots[i].id && entries[k] == Fresh(slots[i], ps[i], cfg)
    ensures forall k | k in entries :: FreshlyBuilt(entries[k], cfg)
  {
    forall k | k in entries
      ensures FreshlyBuilt(entries[k], cfg)
    {
      var i :| 0 <= i < |slots| && k == slots[i].id && entries[k] == Fresh(slots[i], ps[i], cfg);
    }
  }

  /** Keys that follow the slots one by one are the six ids in slot order. */
  lemma SlotOrder(keys: seq<Id>)
    requires |keys| == |Slots()| && forall i | 0 <= i < |Slots()| :: keys[i] == Slots()[i].id
    ensures keys == ["p-f1", "p-b1", "p-s1", "o-f1", "o-b1", "o-s1"]
  {
    assert keys[0] == "p-f1" && keys[1] == "p-b1" && keys[2] == "p-s1";
    assert keys[3] == "o-f1" && keys[4] == "o-b1" && keys[5] == "o-s1";
  }

  /** Whatever cells the generator picks, the state built on them is consistent. */
  lemma DeployedConsistent(rand: int -> real, fuel: nat, cfg: Config)
    requires UnitInterval(rand)
    ensures var d := Deploy(Slots(), {}, rand, fuel);
            d.Some? ==> Consistent(Initial(d.value, cfg))
  {
    var d := Deploy(Slots(), {}, rand, fuel);
    if d.Some? {
      InitialConsistent(d.value, cfg);
    }
  }

  /** The cells of a deployment whose first cells, `ps`, are already chosen. */
  function After(ps: seq<Pos>, rest: Option<seq<Pos>>): Option<seq<Pos>> {
    match rest
    case None => None
    case Some(qs) => Some(ps + qs)
  }

  /** Deploying from the `i`-th slot on: a free cell for that slot, then the remaining slots around it. */
  lemma DeployStep(slots: seq<Slot>, i: nat, occupied: set<Pos>, ps: seq<Pos>, rand: int -> real, fuel: nat)
    requires UnitInterval(rand) && i < |slots|
    ensures var first := FirstFree(occupied, slots[i].owner, slots[i].seed, rand, fuel);
            && (first.None? ==> After(ps, Deploy(slots[i..], occupied, rand, fuel)).None?)
            && (first.Some? ==>
                  After(ps, Deploy(slots[i..], occupied, rand, fuel))
                  == After(ps + [first.value], Deploy(slots[i + 1..], occupied + {first.value}, rand, fuel)))
  {
    assert slots[i..][1..] == slots[i + 1..];
    var first := FirstFree(occupied, slots[i].owner, slots[i].seed, rand, fuel);
    if first.Some? {
      match Deploy(slots[i + 1..], occupied + {first.value}, rand, fuel)
      case None =>
      case Some(qs) => assert ps + ([first.value] + qs) == (ps + [first.value]) + qs;
    }
  }

  lemma LayoutStep(slots: seq<Slot>, ps: seq<Pos>, q: Pos, i: nat)
    requires |ps| == i < |slots| && InBounds(q) && forall k | 0 <= k < i :: InBounds(ps[k])
    ensures Layout(slots[..i + 1], ps + [q]) == Place(Layout(slots[..i], ps), q, Some(slots[i].id))
  {
    assert slots[..i + 1][..i] == slots[..i];
    assert (ps + [q])[..i] == ps;
  }

  lemma FleetStep(slots: seq<Slot>, ps: seq<Pos>, q: Pos, i: nat, cfg: Config)
    requires |ps| == i < |slots|
    ensures Fleet(slots[..i + 1], ps + [q], cfg) == Put(Fleet(slots[..i], ps, cfg), slots[i].id, Fresh(slots[i], q, cfg))
  {
    assert slots[..i + 1][..i] == slots[..i];
    assert (ps + [q])[..i] == ps;
  }

  /** One slot placed on the cell it drew: the layout, the fleet and the rest of the deployment each take one step. */
  lemma PlaceStep(slots: seq<Slot>, ps: seq<Pos>, occupied: set<Pos>, q: Pos, i: nat, rand: int -> real, fuel: nat, cfg: Config)
    requires UnitInterval(rand) && |ps| == i < |slots| && forall k | 0 <= k < i :: InBounds(ps[k])
    requires FirstFree(occupied, slots[i].owner, slots[i].seed, rand, fuel) == Some(q)
    ensures forall k | 0 <= k < i + 1 :: InBounds((ps + [q])[k])
    ensures Layout(slots[..i + 1], ps + [q]) == Place(Layout(slots[..i], ps), q, Some(slots[i].id))
    ensures Fleet(slots[..i + 1], ps + [q], cfg) == Put(Fleet(slots[..i], ps, cfg), slots[i].id, Fresh(slots[i], q, cfg))
    ensures After(ps, Deploy(slots[i..], occupied, rand, fuel)) == After(ps + [q], Deploy(slots[i + 1..], occupied + {q}, rand, fuel))
  {
    assert InBounds(q);
    LayoutStep(slots, ps, q, i);
    FleetStep(slots, ps, q, i, cfg);
    DeployStep(slots, i, occupied, ps, rand, fuel);
  }

  /** Before the first slot the whole deployment is still ahead. */
  lemma PlaceStart(slots: seq<Slot>, rand: int -> real, fuel: nat)
    requires UnitInterval(rand)
    ensures After([], Deploy(slots[0..], {}, rand, fuel)) == Deploy(slots, {}, rand, fuel)
  {
    assert slots[0..] == slots;
    match Deploy(slots, {}, rand, fuel) {
      case None =>
      case Some(qs) => assert [] + qs == qs;
    }
  }

  /** Past the last slot nothing is left to deploy. */
  lemma PlaceDone(slots: seq<Slot>, ps: seq<Pos>, occupied: set<Pos>, rand: int -> real, fuel: nat)
    requires UnitInterval(rand)
    ensures slots[..|slots|] == slots && After(ps, Deploy(slots[|slots|..], occupied, rand, fuel)) == Some(ps)
  {
    assert slots[|slots|..] == [] && ps + [] == ps;
  }

  /**
   * The two `forEach` loops of game-utils.ts:43-65 and :74-96: each slot
   * in turn draws a free cell, goes onto the grid there and into the
   * roster. On success the cells are the ones `Deploy` picks and the grid
   * and roster are the layout and fleet on them.
   */
  method PlaceAll(slots: seq<Slot>, rand: int -> real, fuel: nat, cfg: Config)
      returns (ps: Option<seq<Pos>>, grid: Grid, units: Record<Id, Unit>)
    requires UnitInterval(rand)
    ensures ps == Deploy(slots, {}, rand, fuel)
    ensures ps.Some? ==> grid == Layout(slots, ps.value) && units == Fleet(slots, ps.value, cfg)
  {
    grid := EmptyGrid();
    units := Record([], map[]);
    var occupied: set<Pos> := {};
    var cells: seq<Pos> := [];
    ghost var whole := Deploy(slots, {}, rand, fuel);
    PlaceStart(slots, rand, fuel);
    for i := 0 to |slots|
      invariant |cells| == i
      invariant forall k | 0 <= k < i :: InBounds(cells[k])
      invariant grid == Layout(slots[..i], cells) && units == Fleet(slots[..i], cells, cfg)
      invariant whole == After(cells, Deploy(slots[i..], occupied, rand, fuel))
    {
      var p := RandomPosition(occupied, slots[i].owner, slots[i].seed, rand, fuel);
      if p.None? {
        DeployStep(slots, i, occupied, cells, rand, fuel);
        return None, grid, units;
      }
      var q := p.value;
      PlaceStep(slots, cells, occupied, q, i, rand, fuel, cfg);
      grid := Place(grid, q, Some(slots[i].id));
      units := Put(units, slots[i].id, Fresh(slots[i], q, cfg));
      cells := cells + [q];
      occupied := occupied + {q};
    }
    PlaceDone(slots, cells, occupied, rand, fuel);
    ps := Some(cells);
  }

  /**
   * `createInitialState` (game-utils.ts:5-113): the player's aircraft,
   * then the opponent's, each on a free cell of its side's home rows. The
   * result is the initial state for the cells `Deploy` picks (which
   * `DeployedConsistent` shows consistent); when some aircraft finds no
   * free cell within `fuel` draws there is no result.
   */
  method CreateInitialState(rand: int -> real, fuel: nat, cfg: Config) returns (r: Option<GameState>)
    requires UnitInterval(rand)
    ensures var d := Deploy(Slots(), {}, rand, fuel);
            && (r.Some? <==> d.Some?)
            && (r.Some? ==> r.value == Initial(d.value, cfg))
  {
    var ps, grid, units := PlaceAll(Slots(), rand, fuel, cfg);
    if ps.None? {
      return None;
    }
    r := Some(GameState(grid, units, Record([], map[]), Human, Playing, None, None, NoAction, {}, [], [],
                        1, None, [], cfg.turnTimeLimit, None, cfg.weather, cfg.mode, cfg.waveNumber, 0, 0, units.entries, None));
  }
}
