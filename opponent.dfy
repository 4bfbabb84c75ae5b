/**
 * The opponent's turn (`opponentAI`, src/lib/game-utils.ts:115-220, run
 * by the effect of src/app/game/page.tsx:799-811). Each opponent aircraft
 * in roster order, judged on the state the turn started from: a support
 * off cooldown heals the most damaged friendly aircraft in range; any
 * aircraft attacks the nearest enemy in range; otherwise it flies to the
 * free cell of its movement diamond closest to the nearest enemy. Every
 * choice is a scan that keeps a running minimum and replaces it only on a
 * strictly smaller value, so the first of equals wins.
 */
module Opponent {
  import opened Common
  import opened Records
  import opened Constants
  import opened Board
  import opened Model
  import opened Reducer
  import opened ReducerFacts
  import opened CombatFacts
  import opened Dispatch

  // ---------------------------------------------------------------- the running minimum

  /**
   * The index of the element a left-to-right scan of `xs` keeps: among
   * those passing `ok`, one whose `key` is smallest, replaced only by a
   * strictly smaller one.
   */
  function FirstMin<T>(xs: seq<T>, ok: T -> bool, key: T -> real): (r: Option<nat>)
    ensures r.Some? ==> r.value < |xs| && ok(xs[r.value])
  {
    if xs == [] then None
    else
      var n := |xs| - 1;
      var b := FirstMin(xs[..n], ok, key);
      if ok(xs[n]) && (b.None? || key(xs[n]) < key(xs[b.value])) then Some(n) else b
  }

  /** The scan finds nothing exactly when nothing passes; otherwise its pick has the smallest key, and every earlier passing element a larger one. */
  lemma {:induction false} FirstMinIsFirstMinimum<T>(xs: seq<T>, ok: T -> bool, key: T -> real)
    ensures var r := FirstMin(xs, ok, key);
            && (r.None? <==> forall i | 0 <= i < |xs| :: !ok(xs[i]))
            && (r.Some? ==> forall i | 0 <= i < |xs| && ok(xs[i]) :: key(xs[r.value]) <= key(xs[i]))
            && (r.Some? ==> forall i | 0 <= i < r.value && ok(xs[i]) :: key(xs[r.value]) < key(xs[i]))
  {
    if xs != [] {
      var n := |xs| - 1;
      FirstMinIsFirstMinimum(xs[..n], ok, key);
      assert forall i | 0 <= i < n :: xs[..n][i] == xs[i];
    }
  }

  /** Those three properties pick out a single index: the one the scan keeps. */
  lemma FirstMinUnique<T>(xs: seq<T>, ok: T -> bool, key: T -> real, j: nat)
    requires j < |xs| && ok(xs[j])
    requires forall i | 0 <= i < |xs| && ok(xs[i]) :: key(xs[j]) <= key(xs[i])
    requires forall i | 0 <= i < j && ok(xs[i]) :: key(xs[j]) < key(xs[i])
    ensures FirstMin(xs, ok, key) == Some(j)
  {
    FirstMinIsFirstMinimum(xs, ok, key);
  }

  /** The scan over `xs + [x]` continues the scan over `xs` by one comparison. */
  lemma FirstMinStep<T>(xs: seq<T>, x: T, ok: T -> bool, key: T -> real)
    ensures var b := FirstMin(xs, ok, key);
            FirstMin(xs + [x], ok, key) == if ok(x) && (b.None? || key(x) < key(xs[b.value])) then Some(|xs|) else b
  {
    assert (xs + [x])[..|xs|] == xs;
  }

  // ---------------------------------------------------------------- targets

  /** Within `reach` of `from`; no reach means any distance (`minDistance = Infinity`). */
  function Reaching(from: Pos, reach: Option<int>): Unit -> bool {
    (u: Unit) => reach.None? || Manhattan(from, u.position) <= reach.value
  }

  function DistanceFrom(from: Pos): Unit -> real {
    (u: Unit) => Manhattan(from, u.position) as real
  }

  /**
   * The nearest of `targets` to `from` within `reach`, the first one on
   * ties: the attack target (game-utils.ts:151-161, reach = range) and the
   * enemy to fly towards (:174-184, no reach).
   */
  method NearestTarget(from: Pos, targets: seq<Unit>, reach: Option<int>) returns (best: Option<nat>)
    ensures best == FirstMin(targets, Reaching(from, reach), DistanceFrom(from))
  {
    best := None;
    var minDistance: Option<int> := None;
    for i := 0 to |targets|
      invariant best == FirstMin(targets[..i], Reaching(from, reach), DistanceFrom(from))
      invariant minDistance == if best.None? then None else Some(Manhattan(from, targets[best.value].position))
    {
      FirstMinStep(targets[..i], targets[i], Reaching(from, reach), DistanceFrom(from));
      assert targets[..i + 1] == targets[..i] + [targets[i]];
      var distance := Manhattan(from, targets[i].position);
      if (reach.None? || distance <= reach.value) && (minDistance.None? || distance < minDistance.value) {
        best := Some(i);
        minDistance := Some(distance);
      }
    }
    assert targets[..|targets|] == targets;
  }

  /** `(hp / maxHp) * 100`; a unit without maximum health is never a heal target. */
  function HealthPercent(u: Unit): real {
    if u.stats.maxHp == 0 then 100.0 else u.stats.hp as real / u.stats.maxHp as real * 100.0
  }

  /** A friendly aircraft within the healer's range and below full health (game-utils.ts:131). */
  function Wounded(healer: Unit): Unit -> bool {
    (u: Unit) => Manhattan(healer.position, u.position) <= healer.stats.range && u.stats.maxHp != 0 && HealthPercent(u) < 100.0
  }

  function Health(): Unit -> real {
    (u: Unit) => HealthPercent(u)
  }

  /** One comparison of the heal scan, as game-utils.ts:127-135 writes it. */
  lemma HealStep(healer: Unit, done: seq<Unit>, t: Unit, lowest: real)
    requires lowest == var b := FirstMin(done, Wounded(healer), Health()); if b.None? then 100.0 else HealthPercent(done[b.value])
    ensures var b := FirstMin(done, Wounded(healer), Health());
            var taken := t.stats.maxHp != 0 && Manhattan(healer.position, t.position) <= healer.stats.range
                         && HealthPercent(t) < 100.0 && HealthPercent(t) < lowest;
            && lowest <= 100.0
            && FirstMin(done + [t], Wounded(healer), Health()) == if taken then Some(|done|) else b
  {
    FirstMinStep(done, t, Wounded(healer), Health());
  }

  /**
   * The heal target of game-utils.ts:122-135: of the friendly aircraft in
   * range and below full health, the one with the lowest health
   * percentage, the first one on ties.
   */
  method HealTarget(healer: Unit, friends: seq<Unit>) returns (target: Option<nat>)
    ensures target == FirstMin(friends, Wounded(healer), Health())
  {
    target := None;
    var lowest := 100.0;
    for i := 0 to |friends|
      invariant target == FirstMin(friends[..i], Wounded(healer), Health())
      invariant lowest == if target.None? then 100.0 else HealthPercent(friends[target.value])
    {
      assert target.Some? ==> friends[..i][target.value] == friends[target.value];
      HealStep(healer, friends[..i], friends[i], lowest);
      assert friends[..i + 1] == friends[..i] + [friends[i]];
      var t := friends[i];
      var distance := Manhattan(healer.position, t.position);
      if t.stats.maxHp != 0 {
        var percent := t.stats.hp as real / t.stats.maxHp as real * 100.0;
        assert percent == HealthPercent(t);
        if distance <= healer.stats.range && percent < 100.0 && percent < lowest {
          target := Some(i);
          lowest := percent;
        }
      }
    }
    assert friends[..|friends|] == friends;
  }

  // ---------------------------------------------------------------- the move

  /** A step of `dx` columns and `dy` rows (the loop variables `i` and `j`). */
  datatype Offset = Offset(dx: int, dy: int)

  /** The offsets `(i, j)` of one row of the scan of game-utils.ts:191-192: `j` from `-speed` up to `speed`. */
  function Row(speed: int, i: int): (r: seq<Offset>)
    ensures |r| == if speed < 0 then 0 else 2 * speed + 1
    ensures forall k | 0 <= k < |r| :: r[k] == Offset(i, k - speed)
  {
    if speed < 0 then [] else seq(2 * speed + 1, k => Offset(i, k - speed))
  }

  /** The offsets the nested loops visit before row `i`, rows `-speed` to `i - 1` in order. */
  function Scanned(speed: int, i: int): seq<Offset>
    decreases i + speed
  {
    if i <= -speed then [] else Scanned(speed, i - 1) + Row(speed, i - 1)
  }

  /** Every offset of the scan, in visiting order. */
  function Offsets(speed: int): seq<Offset> {
    Scanned(speed, speed + 1)
  }

  function Shift(p: Pos, o: Offset): Pos {
    Pos(p.x + o.dx, p.y + o.dy)
  }

  /** An offset of at most `speed` steps, not zero, onto an empty cell of the grid (game-utils.ts:193-198). */
  function Landing(g: Grid, from: Pos, speed: int): Offset -> bool
    requires Shaped(g)
  {
    (o: Offset) => Abs(o.dx) + Abs(o.dy) <= speed && o != Offset(0, 0) && Open(g, Shift(from, o))
  }

  function Closeness(from: Pos, goal: Pos): Offset -> real {
    (o: Offset) => Manhattan(Shift(from, o), goal) as real
  }

  /** The cell an index into the offsets names. */
  function CellAt(from: Pos, offsets: seq<Offset>, r: Option<nat>): Option<Pos>
    requires r.Some? ==> r.value < |offsets|
  {
    if r.None? then None else Some(Shift(from, offsets[r.value]))
  }

  /** The move the scan of game-utils.ts:188-206 picks. */
  function BestCell(g: Grid, from: Pos, speed: int, goal: Pos): Option<Pos>
    requires Shaped(g)
  {
    CellAt(from, Offsets(speed), FirstMin(Offsets(speed), Landing(g, from, speed), Closeness(from, goal)))
  }

  /** One visit of the move scan, as game-utils.ts:193-203 writes it. */
  lemma MoveStep(g: Grid, from: Pos, speed: int, goal: Pos, done: seq<Offset>, i: int, j: int, best0: Option<Pos>)
    requires Shaped(g)
    requires best0 == CellAt(from, done, FirstMin(done, Landing(g, from, speed), Closeness(from, goal)))
    ensures var next, nx, ny := done + [Offset(i, j)], from.x + i, from.y + j;
            var taken := !(Abs(i) + Abs(j) > speed || (i == 0 && j == 0))
                         && 0 <= nx < Width && 0 <= ny < Height && g[ny][nx].None?
                         && (best0.None? || Manhattan(Pos(nx, ny), goal) < Manhattan(best0.value, goal));
            CellAt(from, next, FirstMin(next, Landing(g, from, speed), Closeness(from, goal)))
            == if taken then Some(Pos(nx, ny)) else best0
  {
    var ok, key := Landing(g, from, speed), Closeness(from, goal);
    var x := Offset(i, j);
    FirstMinStep(done, x, ok, key);
    LandingAt(g, from, speed, i, j);
    var b := FirstMin(done, ok, key);
    if b.Some? {
      assert (done + [x])[b.value] == done[b.value];
      CloserAt(from, goal, i, j, done[b.value]);
    }
  }

  /** The comparison of game-utils.ts:200 on distances, as the scan's key compares them. */
  lemma CloserAt(from: Pos, goal: Pos, i: int, j: int, o: Offset)
    ensures Closeness(from, goal)(Offset(i, j)) < Closeness(from, goal)(o)
            <==> Manhattan(Pos(from.x + i, from.y + j), goal) < Manhattan(Shift(from, o), goal)
  {
  }

  /** The landing test of game-utils.ts:193-198, written with the loop's own variables. */
  lemma LandingAt(g: Grid, from: Pos, speed: int, i: int, j: int)
    requires Shaped(g)
    ensures var nx, ny := from.x + i, from.y + j;
            Landing(g, from, speed)(Offset(i, j))
            <==> !(Abs(i) + Abs(j) > speed || (i == 0 && j == 0)) && 0 <= nx < Width && 0 <= ny < Height && g[ny][nx].None?
  {
  }

  lemma RowPrefix(rows: seq<Offset>, speed: int, i: int, j: int)
    requires -speed <= j <= speed
    ensures rows + Row(speed, i)[..j + 1 + speed] == (rows + Row(speed, i)[..j + speed]) + [Offset(i, j)]
  {
    var r := Row(speed, i);
    assert r[..j + 1 + speed] == r[..j + speed] + [r[j + speed]];
  }

  /** `best` and `bestDistance` are what the scan keeps after visiting the offsets `done`. */
  ghost predicate Tracks(g: Grid, from: Pos, speed: int, goal: Pos, done: seq<Offset>, best: Option<Pos>, bestDistance: Option<int>)
    requires Shaped(g)
  {
    && best == CellAt(from, done, FirstMin(done, Landing(g, from, speed), Closeness(from, goal)))
    && bestDistance == if best.None? then None else Some(Manhattan(best.value, goal))
  }

  /** One visit of the inner loop (game-utils.ts:192-204): offset `(i, j)` replaces the best move when it lands closer. */
  method Visit(g: Grid, from: Pos, speed: int, goal: Pos, i: int, j: int, ghost done: seq<Offset>,
               best0: Option<Pos>, bestDistance0: Option<int>)
      returns (best: Option<Pos>, bestDistance: Option<int>)
    requires Shaped(g)
    requires Tracks(g, from, speed, goal, done, best0, bestDistance0)
    ensures Tracks(g, from, speed, goal, done + [Offset(i, j)], best, bestDistance)
  {
    best, bestDistance := best0, bestDistance0;
    if !(Abs(i) + Abs(j) > speed || (i == 0 && j == 0)) {
      var newX, newY := from.x + i, from.y + j;
      if 0 <= newX < |g[0]| && 0 <= newY < |g| && g[newY][newX].None? {
        var distanceToTarget := Abs(newX - goal.x) + Abs(newY - goal.y);
        if bestDistance.None? || distanceToTarget < bestDistance.value {
          bestDistance := Some(distanceToTarget);
          best := Some(Pos(newX, newY));
        }
      }
    }
    Visited(g, from, speed, goal, done, i, j, best0, bestDistance0, best, bestDistance);
  }

  /** The outcome of one visit, stated on the loop's own variables, is what the scan keeps for one more offset. */
  lemma Visited(g: Grid, from: Pos, speed: int, goal: Pos, done: seq<Offset>, i: int, j: int,
                best0: Option<Pos>, bestDistance0: Option<int>, best: Option<Pos>, bestDistance: Option<int>)
    requires Shaped(g)
    requires Tracks(g, from, speed, goal, done, best0, bestDistance0)
    requires var nx, ny := from.x + i, from.y + j;
             var d := Abs(nx - goal.x) + Abs(ny - goal.y);
             var taken := !(Abs(i) + Abs(j) > speed || (i == 0 && j == 0))
                          && 0 <= nx < Width && 0 <= ny < Height && g[ny][nx].None?
                          && (bestDistance0.None? || d < bestDistance0.value);
             (best, bestDistance) == if taken then (Some(Pos(nx, ny)), Some(d)) else (best0, bestDistance0)
    ensures Tracks(g, from, speed, goal, done + [Offset(i, j)], best, bestDistance)
  {
    MoveStep(g, from, speed, goal, done, i, j, best0);
  }

  /** The inner loop of game-utils.ts:192-205: row `i` of the scan, `j` from `-speed` up to `speed`. */
  method ScanRow(g: Grid, from: Pos, speed: int, goal: Pos, i: int,
                 best0: Option<Pos>, bestDistance0: Option<int>)
      returns (best: Option<Pos>, bestDistance: Option<int>)
    requires Shaped(g) && -speed <= i <= speed
    requires Tracks(g, from, speed, goal, Scanned(speed, i), best0, bestDistance0)
    ensures Tracks(g, from, speed, goal, Scanned(speed, i + 1), best, bestDistance)
  {
    best, bestDistance := best0, bestDistance0;
    ghost var rows := Scanned(speed, i);
    RowEnds(rows, speed, i);
    var j := -speed;
    while j <= speed
      invariant -speed <= j <= speed + 1
      invariant Tracks(g, from, speed, goal, rows + Row(speed, i)[..j + speed], best, bestDistance)
    {
      best, bestDistance := VisitNext(g, from, speed, goal, i, j, rows, best, bestDistance);
      j := j + 1;
    }
    assert Scanned(speed, i + 1) == rows + Row(speed, i);
  }

  /** `Visit` for the next offset of row `i`, with the offsets visited so far written as a prefix of the row. */
  method VisitNext(g: Grid, from: Pos, speed: int, goal: Pos, i: int, j: int, ghost rows: seq<Offset>,
                   best0: Option<Pos>, bestDistance0: Option<int>)
      returns (best: Option<Pos>, bestDistance: Option<int>)
    requires Shaped(g) && -speed <= j <= speed
    requires Tracks(g, from, speed, goal, rows + Row(speed, i)[..j + speed], best0, bestDistance0)
    ensures Tracks(g, from, speed, goal, rows + Row(speed, i)[..j + 1 + speed], best, bestDistance)
  {
    best, bestDistance := Visit(g, from, speed, goal, i, j, rows + Row(speed, i)[..j + speed], best0, bestDistance0);
    RowPrefix(rows, speed, i, j);
  }

  /** A row before its first visit and after its last. */
  lemma RowEnds(rows: seq<Offset>, speed: int, i: int)
    requires speed >= 0
    ensures rows + Row(speed, i)[..0] == rows && Row(speed, i)[..speed + 1 + speed] == Row(speed, i)
  {
    assert Row(speed, i)[..0] == [];
  }

  /**
   * The nested loops of game-utils.ts:188-206: of the empty cells within
   * `speed` steps of `from` (a diamond, not the path search), the one
   * closest to `goal`, the first in `(i, j)` order on ties.
   */
  method BestMove(g: Grid, from: Pos, speed: int, goal: Pos) returns (best: Option<Pos>)
    requires Shaped(g)
    ensures best == BestCell(g, from, speed, goal)
  {
    best := None;
    var bestDistance: Option<int> := None;
    var i := -speed;
    while i <= speed
      invariant -speed <= i && (speed >= 0 ==> i <= speed + 1) && (speed < 0 ==> i == -speed)
      invariant Tracks(g, from, speed, goal, Scanned(speed, i), best, bestDistance)
    {
      best, bestDistance := ScanRow(g, from, speed, goal, i, best, bestDistance);
      i := i + 1;
    }
    ScanOver(speed, i);
  }

  /** When the outer loop stops, every row has been scanned. */
  lemma ScanOver(speed: int, i: int)
    requires -speed <= i && (speed >= 0 ==> i == speed + 1) && (speed < 0 ==> i == -speed)
    ensures Scanned(speed, i) == Offsets(speed)
  {
  }

  /** `o1` comes before `o2` in the scan: a smaller `i`, or the same `i` and a smaller `j`. */
  predicate Before(o1: Offset, o2: Offset) {
    o1.dx < o2.dx || (o1.dx == o2.dx && o1.dy < o2.dy)
  }

  /** Rows `-speed` to `i - 1` of the scan hold offsets of those rows with `j` within `speed`. */
  lemma {:induction false} ScannedBounds(speed: int, i: int)
    requires speed >= 0 && -speed <= i
    ensures forall k | 0 <= k < |Scanned(speed, i)| ::
              -speed <= Scanned(speed, i)[k].dx < i && -speed <= Scanned(speed, i)[k].dy <= speed
    decreases i + speed
  {
    if i > -speed {
      ScannedBounds(speed, i - 1);
    }
  }

  /** Every offset of rows `-speed` to `i - 1` with `j` within `speed` is visited. */
  lemma {:induction false} ScannedCovers(speed: int, i: int, dx: int, dy: int)
    requires speed >= 0 && -speed <= dx < i && -speed <= dy <= speed
    ensures Offset(dx, dy) in Scanned(speed, i)
    decreases i + speed
  {
    if dx == i - 1 {
      assert Row(speed, i - 1)[dy + speed] == Offset(dx, dy);
    } else {
      ScannedCovers(speed, i - 1, dx, dy);
    }
  }

  predicate Ascending(xs: seq<Offset>) {
    forall k1, k2 | 0 <= k1 < k2 < |xs| :: Before(xs[k1], xs[k2])
  }

  /** The scan visits offsets in increasing `(i, j)` order. */
  lemma {:induction false} ScannedOrdered(speed: int, i: int)
    requires speed >= 0 && -speed <= i
    ensures Ascending(Scanned(speed, i))
    decreases i + speed
  {
    if i > -speed {
      ScannedOrdered(speed, i - 1);
      ScannedBounds(speed, i - 1);
      var front, row := Scanned(speed, i - 1), Row(speed, i - 1);
      var xs := front + row;
      forall k1, k2 | 0 <= k1 < k2 < |xs|
        ensures Before(xs[k1], xs[k2])
      {
        if k2 < |front| {
          assert xs[k1] == front[k1] && xs[k2] == front[k2];
        } else if k1 < |front| {
          assert xs[k1] == front[k1] && front[k1].dx < i - 1;
          assert xs[k2] == row[k2 - |front|] && row[k2 - |front|].dx == i - 1;
          assert Before(xs[k1], xs[k2]);
        } else {
          assert xs[k1] == row[k1 - |front|] && row[k1 - |front|] == Offset(i - 1, k1 - |front| - speed);
          assert xs[k2] == row[k2 - |front|] && row[k2 - |front|] == Offset(i - 1, k2 - |front| - speed);
        }
      }
    }
  }

  /** A cell the move may land on: empty, on the board, and between 1 and `speed` steps from `from`. */
  predicate InDiamond(g: Grid, from: Pos, speed: int, p: Pos)
    requires Shaped(g)
  {
    Open(g, p) && 0 < Manhattan(from, p) <= speed
  }

  /** The offset that takes `from` to `p`. */
  function OffsetTo(from: Pos, p: Pos): (o: Offset)
    ensures Shift(from, o) == p && Abs(o.dx) + Abs(o.dy) == Manhattan(from, p)
  {
    Offset(p.x - from.x, p.y - from.y)
  }

  /** Each cell of the diamond is some offset of the scan that the move may take. */
  lemma DiamondOffset(g: Grid, from: Pos, speed: int, p: Pos) returns (k: nat)
    requires Shaped(g) && InDiamond(g, from, speed, p)
    ensures k < |Offsets(speed)| && Offsets(speed)[k] == OffsetTo(from, p)
    ensures Landing(g, from, speed)(Offsets(speed)[k])
  {
    var o := OffsetTo(from, p);
    OffsetScanned(from, speed, p);
    LandsOn(g, from, speed, p);
    k :| 0 <= k < |Offsets(speed)| && Offsets(speed)[k] == o;
  }

  lemma OffsetScanned(from: Pos, speed: int, p: Pos)
    requires 0 < Manhattan(from, p) <= speed
    ensures OffsetTo(from, p) in Offsets(speed)
  {
    var o := OffsetTo(from, p);
    ScannedCovers(speed, speed + 1, o.dx, o.dy);
  }

  lemma LandsOn(g: Grid, from: Pos, speed: int, p: Pos)
    requires Shaped(g) && InDiamond(g, from, speed, p)
    ensures Landing(g, from, speed)(OffsetTo(from, p))
  {
  }

  /** The move scan finds a cell at least as close to `goal` as any cell of the diamond, and on a tie one no later in the scan. */
  lemma BestCellBeats(g: Grid, from: Pos, speed: int, goal: Pos, p: Pos)
    requires Shaped(g) && InDiamond(g, from, speed, p)
    ensures var r := BestCell(g, from, speed, goal);
            && r.Some? && Manhattan(r.value, goal) <= Manhattan(p, goal)
            && (Manhattan(p, goal) == Manhattan(r.value, goal) ==> r.value.x < p.x || (r.value.x == p.x && r.value.y <= p.y))
  {
    var xs, ok, key := Offsets(speed), Landing(g, from, speed), Closeness(from, goal);
    var b := FirstMin(xs, ok, key);
    FirstMinIsFirstMinimum(xs, ok, key);
    var k := DiamondOffset(g, from, speed, p);
    if Manhattan(p, goal) as real == key(xs[b.value]) && b.value != k {
      assert b.value < k;
      ScannedOrdered(speed, speed + 1);
      assert Before(xs[b.value], xs[k]);
    }
  }

  /**
   * What the move scan finds, in cells: nothing exactly when no empty cell
   * lies within `speed` steps; otherwise such a cell, no farther from
   * `goal` than any other, and among the equally close the one with the
   * smallest column, then the smallest row.
   */
  lemma BestCellMeans(g: Grid, from: Pos, speed: int, goal: Pos)
    requires Shaped(g)
    ensures var r := BestCell(g, from, speed, goal);
            && (r.None? <==> forall p :: !InDiamond(g, from, speed, p))
            && (r.Some? ==> InDiamond(g, from, speed, r.value))
            && (r.Some? ==> forall p | InDiamond(g, from, speed, p) :: Manhattan(r.value, goal) <= Manhattan(p, goal))
            && (r.Some? ==> forall p | InDiamond(g, from, speed, p) && Manhattan(p, goal) == Manhattan(r.value, goal) ::
                              r.value.x < p.x || (r.value.x == p.x && r.value.y <= p.y))
  {
    var xs, ok := Offsets(speed), Landing(g, from, speed);
    var b := FirstMin(xs, ok, Closeness(from, goal));
    forall p | InDiamond(g, from, speed, p)
      ensures var r := BestCell(g, from, speed, goal);
              && r.Some? && Manhattan(r.value, goal) <= Manhattan(p, goal)
              && (Manhattan(p, goal) == Manhattan(r.value, goal) ==> r.value.x < p.x || (r.value.x == p.x && r.value.y <= p.y))
    {
      BestCellBeats(g, from, speed, goal, p);
    }
    if b.Some? {
      LandingInDiamond(g, from, speed, xs[b.value]);
      assert BestCell(g, from, speed, goal) == Some(Shift(from, xs[b.value]));
    }
  }

  /** A landing offset takes `from` to a cell of the diamond. */
  lemma LandingInDiamond(g: Grid, from: Pos, speed: int, o: Offset)
    requires Shaped(g) && Landing(g, from, speed)(o)
    ensures InDiamond(g, from, speed, Shift(from, o))
  {
    assert Manhattan(from, Shift(from, o)) == Abs(o.dx) + Abs(o.dy);
  }

  // ---------------------------------------------------------------- one aircraft's decision

  /** What one opponent aircraft does: heal a friend, attack an enemy, fly to a cell, or nothing. */
  datatype Decision =
    | Heal(caster: Id, target: Id)
    | Strike(attacker: Id, target: Id)
    | Advance(mover: Id, to: Pos)
    | Hold

  /** `playerAircrafts` (game-utils.ts:117) */
  function Enemies(s: GameState): (r: seq<Unit>)
    requires Valid(s.units)
    ensures forall u :: u in r <==> u in Roster(s.units) && u.owner == Human
  {
    OwnedBy(Roster(s.units), Human)
  }

  /** `opponentAircrafts` (game-utils.ts:116) */
  function Squadron(s: GameState): (r: seq<Unit>)
    requires Valid(s.units)
    ensures forall u :: u in r <==> u in Roster(s.units) && u.owner == Opponent
  {
    OwnedBy(Roster(s.units), Opponent)
  }

  /** The units of `us` other than the one called `id`, in order. */
  function AllBut(us: seq<Unit>, id: Id): (r: seq<Unit>)
    ensures forall u :: u in r <==> u in us && u.id != id
  {
    if us == [] then []
    else if us[0].id == id then AllBut(us[1..], id)
    else [us[0]] + AllBut(us[1..], id)
  }

  /** `friendlyAircrafts` (game-utils.ts:125): the other opponent aircraft. */
  function Friends(s: GameState, a: Unit): (r: seq<Unit>)
    requires Valid(s.units)
    ensures forall u :: u in r <==> u in Roster(s.units) && u.owner == Opponent && u.id != a.id
  {
    AllBut(Squadron(s), a.id)
  }

  /** Whether `a` heals: a support that has not attacked, off cooldown, with a wounded friend in range and the energy to spend (game-utils.ts:122, 138). */
  predicate Heals(s: GameState, a: Unit)
    requires Valid(s.units)
  {
    && a.kind == Support && !a.hasAttacked && a.cooldown == 0
    && a.stats.energy >= a.stats.specialAbilityCost
    && FirstMin(Friends(s, a), Wounded(a), Health()).Some?
  }

  /** Whether `a` attacks: it has not attacked and an enemy is within its range (game-utils.ts:151-161). */
  predicate Strikes(s: GameState, a: Unit)
    requires Valid(s.units)
  {
    !a.hasAttacked && FirstMin(Enemies(s), Reaching(a.position, Some(a.stats.range)), DistanceFrom(a.position)).Some?
  }

  /** The enemy `a` flies towards: the nearest, the first one on ties (game-utils.ts:176-185). */
  function Quarry(s: GameState, a: Unit): Option<nat>
    requires Valid(s.units)
  {
    FirstMin(Enemies(s), Reaching(a.position, None), DistanceFrom(a.position))
  }

  /** The decision game-utils.ts:119-218 takes for aircraft `a` on state `s`. */
  function Decide(s: GameState, a: Unit): Decision
    requires Shaped(s.grid) && Valid(s.units)
  {
    if Heals(s, a) then
      var friends := Friends(s, a);
      Heal(a.id, friends[FirstMin(friends, Wounded(a), Health()).value].id)
    else if Strikes(s, a) then
      var enemies := Enemies(s);
      Strike(a.id, enemies[FirstMin(enemies, Reaching(a.position, Some(a.stats.range)), DistanceFrom(a.position)).value].id)
    else if a.hasMoved || Quarry(s, a).None? then Hold
    else
      match BestCell(s.grid, a.position, a.stats.speed, Enemies(s)[Quarry(s, a).value].position)
      case None => Hold
      case Some(c) => Advance(a.id, c)
  }

  /** The body of the loop of game-utils.ts:119-218 for one aircraft, up to the dispatches. */
  method Choose(s: GameState, a: Unit) returns (d: Decision)
    requires Shaped(s.grid) && Valid(s.units)
    ensures d == Decide(s, a)
  {
    var enemies := Enemies(s);
    if a.kind == Support && !a.hasAttacked && a.cooldown == 0 {
      var friends := Friends(s, a);
      var heal := HealTarget(a, friends);
      if heal.Some? && a.stats.energy >= a.stats.specialAbilityCost {
        return Heal(a.id, friends[heal.value].id);
      }
    }
    assert !Heals(s, a);
    if !a.hasAttacked {
      var strike := NearestTarget(a.position, enemies, Some(a.stats.range));
      if strike.Some? {
        return Strike(a.id, enemies[strike.value].id);
      }
    }
    assert !Strikes(s, a);
    if !a.hasMoved {
      var closest := NearestTarget(a.position, enemies, None);
      if closest.Some? {
        var move := BestMove(s.grid, a.position, a.stats.speed, enemies[closest.value].position);
        if move.Some? {
          return Advance(a.id, move.value);
        }
      }
    }
    return Hold;
  }

  /**
   * An aircraft heals exactly when it is a support that has not attacked,
   * is off cooldown, can pay for its special, and has a friendly aircraft
   * in range below full health; it heals the one with the lowest health
   * percentage, the first in roster order on ties.
   */
  lemma HealChoice(s: GameState, a: Unit)
    requires Shaped(s.grid) && Valid(s.units)
    ensures Decide(s, a).Heal? <==>
              && a.kind == Support && !a.hasAttacked && a.cooldown == 0
              && a.stats.energy >= a.stats.specialAbilityCost
              && exists f | f in Friends(s, a) :: Wounded(a)(f)
    ensures Decide(s, a).Heal? ==>
              var fs := Friends(s, a);
              && Decide(s, a).caster == a.id
              && exists i | 0 <= i < |fs| ::
                   && fs[i].id == Decide(s, a).target && Wounded(a)(fs[i])
                   && (forall j | 0 <= j < |fs| && Wounded(a)(fs[j]) :: HealthPercent(fs[i]) <= HealthPercent(fs[j]))
                   && (forall j | 0 <= j < i && Wounded(a)(fs[j]) :: HealthPercent(fs[i]) < HealthPercent(fs[j]))
  {
    var fs := Friends(s, a);
    HealDecided(s, a);
    HealPick(fs, a);
    var h := FirstMin(fs, Wounded(a), Health());
    if Heals(s, a) {
      assert fs[h.value].id == Decide(s, a).target;
    }
  }

  /** The heal scan over `fs` picks a wounded friend of lowest health, the first on ties, whenever one is wounded. */
  lemma HealPick(fs: seq<Unit>, a: Unit)
    ensures var h := FirstMin(fs, Wounded(a), Health());
            && (h.Some? <==> exists f | f in fs :: Wounded(a)(f))
            && (h.Some? ==>
                  && Wounded(a)(fs[h.value])
                  && (forall j | 0 <= j < |fs| && Wounded(a)(fs[j]) :: HealthPercent(fs[h.value]) <= HealthPercent(fs[j]))
                  && (forall j | 0 <= j < h.value && Wounded(a)(fs[j]) :: HealthPercent(fs[h.value]) < HealthPercent(fs[j])))
  {
    FirstMinIsFirstMinimum(fs, Wounded(a), Health());
    var h := FirstMin(fs, Wounded(a), Health());
    if h.Some? {
      assert fs[h.value] in fs;
    }
  }

  /** `Decide` heals exactly when `Heals` holds, and then heals the first friend of lowest health. */
  lemma HealDecided(s: GameState, a: Unit)
    requires Shaped(s.grid) && Valid(s.units)
    ensures Decide(s, a).Heal? <==> Heals(s, a)
    ensures Heals(s, a) ==>
              var fs := Friends(s, a);
              Decide(s, a) == Heal(a.id, fs[FirstMin(fs, Wounded(a), Health()).value].id)
  {
  }

  /**
   * An aircraft that does not heal attacks exactly when it has not attacked
   * and an enemy is within its range; it attacks the nearest such enemy,
   * the first in roster order on ties.
   */
  lemma StrikeChoice(s: GameState, a: Unit)
    requires Shaped(s.grid) && Valid(s.units)
    ensures Decide(s, a).Strike? <==>
              !Decide(s, a).Heal? && !a.hasAttacked
              && exists e | e in Enemies(s) :: Manhattan(a.position, e.position) <= a.stats.range
    ensures Decide(s, a).Strike? ==>
              var es, reach := Enemies(s), a.stats.range;
              && Decide(s, a).attacker == a.id
              && exists i | 0 <= i < |es| ::
                   && es[i].id == Decide(s, a).target && Manhattan(a.position, es[i].position) <= reach
                   && (forall j | 0 <= j < |es| && Manhattan(a.position, es[j].position) <= reach ::
                         Manhattan(a.position, es[i].position) <= Manhattan(a.position, es[j].position))
                   && (forall j | 0 <= j < i && Manhattan(a.position, es[j].position) <= reach ::
                         Manhattan(a.position, es[i].position) < Manhattan(a.position, es[j].position))
  {
    var es := Enemies(s);
    var ok, key := Reaching(a.position, Some(a.stats.range)), DistanceFrom(a.position);
    FirstMinIsFirstMinimum(es, ok, key);
    var t := FirstMin(es, ok, key);
    if t.Some? {
      assert es[t.value] in es;
    }
    forall j | 0 <= j < |es|
      ensures ok(es[j]) <==> Manhattan(a.position, es[j].position) <= a.stats.range
      ensures key(es[j]) == Manhattan(a.position, es[j].position) as real
    {
    }
    forall e | e in es
      ensures ok(e) <==> Manhattan(a.position, e.position) <= a.stats.range
    {
    }
  }

  /**
   * An aircraft that neither heals nor attacks flies exactly when it has
   * not moved, there is an enemy, and an empty cell lies within its speed.
   */
  lemma AdvanceChoice(s: GameState, a: Unit)
    requires Shaped(s.grid) && Valid(s.units)
    ensures Decide(s, a).Advance? <==>
              && !Decide(s, a).Heal? && !Decide(s, a).Strike? && !a.hasMoved && |Enemies(s)| > 0
              && exists p :: InDiamond(s.grid, a.position, a.stats.speed, p)
  {
    var es := Enemies(s);
    var q := Quarry(s, a);
    FirstMinIsFirstMinimum(es, Reaching(a.position, None), DistanceFrom(a.position));
    if |es| > 0 {
      assert Reaching(a.position, None)(es[0]);
      BestCellMeans(s.grid, a.position, a.stats.speed, es[q.value].position);
    }
  }

  /**
   * Where an aircraft at `from` flies: to a cell of its diamond closest to
   * the nearest of `es` (the first in order on ties), and among equally
   * close cells to the one with the smallest column, then the smallest row.
   */
  ghost predicate FliesTowardsNearest(g: Grid, from: Pos, speed: int, es: seq<Unit>, to: Pos)
    requires Shaped(g)
  {
    && InDiamond(g, from, speed, to)
    && exists i | 0 <= i < |es| ::
         && (forall j | 0 <= j < |es| :: Manhattan(from, es[i].position) <= Manhattan(from, es[j].position))
         && (forall j | 0 <= j < i :: Manhattan(from, es[i].position) < Manhattan(from, es[j].position))
         && (forall p | InDiamond(g, from, speed, p) :: Manhattan(to, es[i].position) <= Manhattan(p, es[i].position))
         && (forall p | InDiamond(g, from, speed, p) && Manhattan(p, es[i].position) == Manhattan(to, es[i].position) ::
               to.x < p.x || (to.x == p.x && to.y <= p.y))
  }

  lemma TowardsNearest(g: Grid, from: Pos, speed: int, es: seq<Unit>, i: nat)
    requires Shaped(g) && FirstMin(es, Reaching(from, None), DistanceFrom(from)) == Some(i)
    requires BestCell(g, from, speed, es[i].position).Some?
    ensures FliesTowardsNearest(g, from, speed, es, BestCell(g, from, speed, es[i].position).value)
  {
    NearestIs(from, es, i);
    BestCellMeans(g, from, speed, es[i].position);
    FliesTo(g, from, speed, es, i, BestCell(g, from, speed, es[i].position).value);
  }

  /** A cell of the diamond closest to the first nearest enemy, smallest `x` then `y` on ties, is one the aircraft flies towards. */
  lemma FliesTo(g: Grid, from: Pos, speed: int, es: seq<Unit>, i: nat, to: Pos)
    requires Shaped(g) && i < |es|
    requires forall j | 0 <= j < |es| :: Manhattan(from, es[i].position) <= Manhattan(from, es[j].position)
    requires forall j | 0 <= j < i :: Manhattan(from, es[i].position) < Manhattan(from, es[j].position)
    requires InDiamond(g, from, speed, to)
    requires forall p | InDiamond(g, from, speed, p) :: Manhattan(to, es[i].position) <= Manhattan(p, es[i].position)
    requires forall p | InDiamond(g, from, speed, p) && Manhattan(p, es[i].position) == Manhattan(to, es[i].position) ::
               to.x < p.x || (to.x == p.x && to.y <= p.y)
    ensures FliesTowardsNearest(g, from, speed, es, to)
  {
  }

  /** The enemy the unbounded scan keeps is a nearest one, and the first of the nearest. */
  lemma NearestIs(from: Pos, es: seq<Unit>, i: nat)
    requires FirstMin(es, Reaching(from, None), DistanceFrom(from)) == Some(i)
    ensures i < |es|
    ensures forall j | 0 <= j < |es| :: Manhattan(from, es[i].position) <= Manhattan(from, es[j].position)
    ensures forall j | 0 <= j < i :: Manhattan(from, es[i].position) < Manhattan(from, es[j].position)
  {
    FirstMinIsFirstMinimum(es, Reaching(from, None), DistanceFrom(from));
    assert forall j | 0 <= j < |es| :: Reaching(from, None)(es[j]);
  }

  /** A flying aircraft flies towards the nearest enemy, to the closest free cell it can reach. */
  lemma AdvanceTarget(s: GameState, a: Unit)
    requires Shaped(s.grid) && Valid(s.units)
    ensures var d := Decide(s, a);
            d.Advance? ==> d.mover == a.id && FliesTowardsNearest(s.grid, a.position, a.stats.speed, Enemies(s), d.to)
  {
    if Decide(s, a).Advance? {
      var i := AdvanceGoal(s, a);
      TowardsNearest(s.grid, a.position, a.stats.speed, Enemies(s), i);
    }
  }

  /** A flying aircraft flies to the cell the move scan picks towards the enemy the quarry scan picks. */
  lemma AdvanceGoal(s: GameState, a: Unit) returns (i: nat)
    requires Shaped(s.grid) && Valid(s.units) && Decide(s, a).Advance?
    ensures Quarry(s, a) == Some(i) && i < |Enemies(s)|
    ensures Decide(s, a) == Advance(a.id, BestCell(s.grid, a.position, a.stats.speed, Enemies(s)[i].position).value)
  {
    i := Quarry(s, a).value;
  }

  // ---------------------------------------------------------------- the dispatched actions

  /** The actions game-utils.ts dispatches for a decision (:139-144, :164-169, :208-213). */
  function Intents(d: Decision, draws: Draws): (acts: seq<Action>)
    ensures d.Hold? <==> acts == []
    ensures !d.Hold? ==> |acts| == 3
  {
    match d
    case Heal(c, t) => [SelectAircraft(c), SelectAction(SpecialAction), SpecialAircraft(Some(t), None)]
    case Strike(a, t) => [SelectAircraft(a), SelectAction(AttackAction), AttackAircraft(t, draws)]
    case Advance(m, to) => [SelectAircraft(m), SelectAction(MoveAction), MoveAircraft(to)]
    case Hold => []
  }

  /** A unit listed by `Object.values` of a roster keyed by id is the roster's entry for its id. */
  lemma InRoster(r: Record<Id, Unit>, u: Unit)
    requires Valid(r) && KeyedById(r) && u in Roster(r)
    ensures u.id in r.entries && r.entries[u.id] == u
  {
    var i :| 0 <= i < |Roster(r)| && Roster(r)[i] == u;
    assert r.keys[i] in r.entries;
  }

  // ---------------------------------------------------------------- what the decisions do

  /** The fields neither selecting a unit nor choosing an action touches. */
  predicate Keeps(r: GameState, s: GameState) {
    && r.units == s.units && r.destroyed == s.destroyed && r.grid == s.grid && r.log == s.log
    && r.currentPlayer == s.currentPlayer && r.phase == s.phase
  }

  lemma SelectAircraftKeeps(s: GameState, id: Id, env: Env)
    requires WellFormed(s) && id in s.units.entries
    ensures Defined(s, SelectAircraft(id))
    ensures Reduce(s, SelectAircraft(id), env) == SelectAircraftCase(s, id)
    ensures Keeps(SelectAircraftCase(s, id), s)
  {
  }

  lemma SelectAircraftStep(s: GameState, id: Id, env: Env)
    requires Consistent(s) && id in s.units.entries
    ensures Defined(s, SelectAircraft(id))
    ensures Consistent(Reduce(s, SelectAircraft(id), env)) && Keeps(Reduce(s, SelectAircraft(id), env), s)
  {
    ConsistentIsWellFormed(s);
    SelectAircraftKeeps(s, id, env);
    SelectAircraftKeepsConsistent(s, id);
  }

  lemma SelectActionReduces(s: GameState, kind: ActionKind, env: Env)
    requires WellFormed(s) && SelectionLive(s)
    ensures Defined(s, SelectAction(kind))
    ensures Reduce(s, SelectAction(kind), env) == SelectActionCase(s, kind)
  {
  }

  lemma SelectActionKeeps(s: GameState, kind: ActionKind)
    requires WellFormed(s) && SelectionLive(s)
    ensures Keeps(SelectActionCase(s, kind), s)
  {
  }

  lemma SelectActionStep(s: GameState, kind: ActionKind, env: Env)
    requires Consistent(s)
    ensures Defined(s, SelectAction(kind))
    ensures Consistent(Reduce(s, SelectAction(kind), env)) && Keeps(Reduce(s, SelectAction(kind), env), s)
  {
    ConsistentIsWellFormed(s);
    SelectActionReduces(s, kind, env);
    SelectActionKeeps(s, kind);
    SelectActionKeepsConsistent(s, kind);
  }

  lemma AttackStep(s: GameState, t: Id, dr: Draws, env: Env)
    requires Consistent(s) && t in s.units.entries && s.units.entries[t].owner != s.currentPlayer
    ensures Defined(s, AttackAircraft(t, dr))
    ensures var r := Reduce(s, AttackAircraft(t, dr), env);
            Consistent(r) && r.currentPlayer == s.currentPlayer && r.phase == s.phase
  {
    ConsistentIsWellFormed(s);
    AttackReduces(s, t, dr, env);
    AttackKeepsConsistent(s, t, dr);
    AttackKeepsTurn(s, t, dr);
  }

  lemma AttackReduces(s: GameState, t: Id, dr: Draws, env: Env)
    requires WellFormed(s) && SelectionLive(s) && t in s.units.entries
    ensures Defined(s, AttackAircraft(t, dr)) && Reduce(s, AttackAircraft(t, dr), env) == AttackCase(s, t, dr)
  {
  }

  lemma AttackKeepsTurn(s: GameState, t: Id, dr: Draws)
    requires WellFormed(s) && SelectionLive(s) && t in s.units.entries
    ensures AttackCase(s, t, dr).currentPlayer == s.currentPlayer && AttackCase(s, t, dr).phase == s.phase
  {
  }

  lemma FlightStep(s: GameState, to: Pos, env: Env)
    requires Consistent(s) && Open(s.grid, to)
    ensures Defined(s, MoveAircraft(to))
    ensures var r := Reduce(s, MoveAircraft(to), env);
            Consistent(r) && r.currentPlayer == s.currentPlayer && r.phase == s.phase
  {
    ConsistentIsWellFormed(s);
    MoveKeepsConsistent(s, to);
  }

  /** SPECIAL_AIRCRAFT without a position returns the state it is given. */
  lemma SpecialStep(s: GameState, t: Id, env: Env)
    requires Consistent(s)
    ensures Defined(s, SpecialAircraft(Some(t), None)) && Reduce(s, SpecialAircraft(Some(t), None), env) == s
  {
    ConsistentIsWellFormed(s);
  }

  /** The heal dispatches: the reducer takes them and changes only the selection. */
  lemma HealRun(s: GameState, c: Id, t: Id, env: Env)
    requires Consistent(s) && c in s.units.entries
    ensures var r := Run(s, [SelectAircraft(c), SelectAction(SpecialAction), SpecialAircraft(Some(t), None)], env);
            r.Some? && Consistent(r.value) && Keeps(r.value, s)
  {
    SelectAircraftStep(s, c, env);
    var s1 := Reduce(s, SelectAircraft(c), env);
    SelectActionStep(s1, SpecialAction, env);
    SpecialStep(Reduce(s1, SelectAction(SpecialAction), env), t, env);
    RunThree(s, SelectAircraft(c), SelectAction(SpecialAction), SpecialAircraft(Some(t), None), env);
  }

  /** The attack dispatches against a live unit of the other side: the reducer takes them and the state stays consistent. */
  lemma StrikeRun(s: GameState, c: Id, t: Id, dr: Draws, env: Env)
    requires Consistent(s) && c in s.units.entries && t in s.units.entries && s.units.entries[t].owner != s.currentPlayer
    ensures var r := Run(s, [SelectAircraft(c), SelectAction(AttackAction), AttackAircraft(t, dr)], env);
            r.Some? && Consistent(r.value) && r.value.currentPlayer == s.currentPlayer && r.value.phase == s.phase
  {
    SelectAircraftStep(s, c, env);
    var s1 := Reduce(s, SelectAircraft(c), env);
    SelectActionStep(s1, AttackAction, env);
    AttackStep(Reduce(s1, SelectAction(AttackAction), env), t, dr, env);
    RunThree(s, SelectAircraft(c), SelectAction(AttackAction), AttackAircraft(t, dr), env);
  }

  /** The move dispatches to an empty cell: the reducer takes them and the state stays consistent. */
  lemma AdvanceRun(s: GameState, c: Id, to: Pos, env: Env)
    requires Consistent(s) && c in s.units.entries && Open(s.grid, to)
    ensures var r := Run(s, [SelectAircraft(c), SelectAction(MoveAction), MoveAircraft(to)], env);
            r.Some? && Consistent(r.value) && r.value.currentPlayer == s.currentPlayer && r.value.phase == s.phase
  {
    SelectAircraftStep(s, c, env);
    var s1 := Reduce(s, SelectAircraft(c), env);
    SelectActionStep(s1, MoveAction, env);
    FlightStep(Reduce(s1, SelectAction(MoveAction), env), to, env);
    RunThree(s, SelectAircraft(c), SelectAction(MoveAction), MoveAircraft(to), env);
  }

  /**
   * The AI's heal does nothing: it dispatches SPECIAL_AIRCRAFT with a
   * target and no position, and the reducer's special (page.tsx:296-366)
   * only revives, and only at a position. The support ends up selected with
   * its special chosen; units, grid, log and turn are as they were.
   */
  lemma HealIsIdle(s: GameState, a: Unit, dr: Draws, env: Env)
    requires Consistent(s) && a.id in s.units.entries && Decide(s, a).Heal?
    ensures var r := Run(s, Intents(Decide(s, a), dr), env);
            && r.Some? && Consistent(r.value)
            && r.value.units == s.units && r.value.destroyed == s.destroyed && r.value.grid == s.grid
            && r.value.log == s.log && r.value.currentPlayer == s.currentPlayer && r.value.phase == s.phase
  {
    var d := Decide(s, a);
    HealCaster(s, a);
    HealRun(s, a.id, d.target, env);
  }

  lemma HealCaster(s: GameState, a: Unit)
    requires Shaped(s.grid) && Valid(s.units) && Decide(s, a).Heal?
    ensures Decide(s, a).caster == a.id
  {
  }

  /** The target of an attack the AI decides is a live unit of the human player. */
  lemma StrikeTarget(s: GameState, a: Unit) returns (t: Id)
    requires Consistent(s) && Decide(s, a).Strike?
    ensures Decide(s, a) == Strike(a.id, t)
    ensures t in s.units.entries && s.units.entries[t].owner == Human
  {
    t := Decide(s, a).target;
    StrikeChoice(s, a);
    var es := Enemies(s);
    var i :| 0 <= i < |es| && es[i].id == t;
    assert es[i] in es;
    InRoster(s.units, es[i]);
  }

  /** A decision the reducer can carry out for `a`: it names `a`, and an attack names a live enemy, a flight an empty cell. */
  ghost predicate Feasible(s: GameState, a: Unit, d: Decision)
    requires Shaped(s.grid)
  {
    match d
    case Heal(c, _) => c == a.id
    case Strike(c, t) => c == a.id && t in s.units.entries && s.units.entries[t].owner != s.currentPlayer
    case Advance(c, to) => c == a.id && Open(s.grid, to)
    case Hold => true
  }

  /** On the opponent's turn, every decision the AI takes on a consistent state is feasible. */
  lemma DecideFeasible(s: GameState, a: Unit)
    requires Consistent(s) && s.currentPlayer == Opponent
    ensures Feasible(s, a, Decide(s, a))
  {
    var d := Decide(s, a);
    if d.Strike? {
      var t := StrikeTarget(s, a);
    } else if d.Advance? {
      AdvanceTarget(s, a);
    }
  }

  /** The reducer takes every action of a feasible decision for a live aircraft, and the state stays consistent. */
  lemma FeasibleRuns(s: GameState, a: Unit, d: Decision, dr: Draws, env: Env)
    requires Consistent(s) && a.id in s.units.entries && Feasible(s, a, d)
    ensures var r := Run(s, Intents(d, dr), env);
            r.Some? && Consistent(r.value) && r.value.currentPlayer == s.currentPlayer && r.value.phase == s.phase
  {
    match d
    case Heal(_, t) => HealRun(s, a.id, t, env);
    case Strike(_, t) => StrikeRun(s, a.id, t, dr, env);
    case Advance(_, to) => AdvanceRun(s, a.id, to, env);
    case Hold =>
  }

  /** Whatever the AI decides on the opponent's turn for a live aircraft of a consistent state, the reducer takes all of it and the state stays consistent. */
  lemma DecisionApplies(s: GameState, a: Unit, dr: Draws, env: Env)
    requires Consistent(s) && s.currentPlayer == Opponent && a.id in s.units.entries
    ensures var r := Run(s, Intents(Decide(s, a), dr), env);
            r.Some? && Consistent(r.value) && r.value.currentPlayer == s.currentPlayer && r.value.phase == s.phase
  {
    DecideFeasible(s, a);
    FeasibleRuns(s, a, Decide(s, a), dr, env);
  }
}