/**
 * The 12 x 12 battlefield of unit ids, Manhattan distance, and the two
 * grid scans that SELECT_ACTION performs (src/app/game/page.tsx:84-138):
 * the breadth-first search for move targets and the row-by-row scan for
 * revival cells.
 */
module Board {
  import opened Common

  /** GRID_WIDTH and GRID_HEIGHT. */
  const Width: int := 12
  const Height: int := 12

  datatype Pos = Pos(x: int, y: int)

  predicate InBounds(p: Pos) {
    0 <= p.x < Width && 0 <= p.y < Height
  }

  function Abs(n: int): nat {
    if n < 0 then -n else n
  }

  /** `Math.abs(a.x - b.x) + Math.abs(a.y - b.y)` */
  function Manhattan(a: Pos, b: Pos): nat {
    Abs(a.x - b.x) + Abs(a.y - b.y)
  }

  /** A Height x Width matrix indexed as `m[y][x]`. */
  predicate Shaped<T>(m: seq<seq<T>>) {
    |m| == Height && forall y | 0 <= y < Height :: |m[y]| == Width
  }

  function At<T>(m: seq<seq<T>>, p: Pos): T
    requires Shaped(m) && InBounds(p)
  {
    m[p.y][p.x]
  }

  /** The copy of `m` in which cell `p` holds `v` (`newGrid[p.y][p.x] = v`). */
  function Place<T>(m: seq<seq<T>>, p: Pos, v: T): (r: seq<seq<T>>)
    requires Shaped(m) && InBounds(p)
    ensures Shaped(r) && At(r, p) == v
    ensures forall q | InBounds(q) && q != p :: At(r, q) == At(m, q)
  {
    m[p.y := m[p.y][p.x := v]]
  }

  /** Each cell holds the id of the unit standing on it, or nothing. */
  type Grid = seq<seq<Option<Id>>>

  /** An in-bounds cell with no unit on it (`!state.grid[y][x]`). */
  predicate Open(g: Grid, p: Pos)
    requires Shaped(g)
  {
    InBounds(p) && At(g, p).None?
  }

  /** Every cell of the battlefield. */
  function Cells(): (c: set<Pos>)
    ensures forall p :: p in c <==> InBounds(p)
  {
    var c := set x, y | 0 <= x < Width && 0 <= y < Height :: Pos(x, y);
    assert forall p | InBounds(p) :: p == Pos(p.x, p.y) && p in c;
    c
  }

  /** The four neighbours in the order the search tries them: `dy` +1, `dy` -1, `dx` +1, `dx` -1. */
  function Neighbor(p: Pos, k: int): Pos
    requires 0 <= k < 4
  {
    if k == 0 then Pos(p.x, p.y + 1)
    else if k == 1 then Pos(p.x, p.y - 1)
    else if k == 2 then Pos(p.x + 1, p.y)
    else Pos(p.x - 1, p.y)
  }

  /** The direction opposite to `k`. */
  function Back(k: int): (b: int)
    requires 0 <= k < 4
    ensures 0 <= b < 4
    ensures forall p :: Neighbor(Neighbor(p, k), b) == p
  {
    if k == 0 then 1 else if k == 1 then 0 else if k == 2 then 3 else 2
  }

  /**
   * `p` is `origin`, or it is reached from `origin` in at most `steps`
   * 4-directional steps, each step landing on an open cell. A unit cannot
   * pass through any other unit, friend or foe.
   */
  predicate Within(g: Grid, origin: Pos, p: Pos, steps: int)
    requires Shaped(g)
    decreases steps
  {
    p == origin ||
    (steps > 0 && Open(g, p) &&
     exists k | 0 <= k < 4 :: Within(g, origin, Neighbor(p, k), steps - 1))
  }

  /** Allowing more steps never loses a cell. */
  lemma {:induction false} WithinMonotone(g: Grid, origin: Pos, p: Pos, a: int, b: int)
    requires Shaped(g) && a <= b && Within(g, origin, p, a)
    ensures Within(g, origin, p, b)
    decreases a
  {
    if p != origin {
      var k :| 0 <= k < 4 && Within(g, origin, Neighbor(p, k), a - 1);
      WithinMonotone(g, origin, Neighbor(p, k), a - 1, b - 1);
    }
  }

  /** A cell reachable in `steps` steps lies in the Manhattan diamond of radius `steps`. */
  lemma {:induction false} WithinDiamond(g: Grid, origin: Pos, p: Pos, steps: int)
    requires Shaped(g) && Within(g, origin, p, steps) && p != origin
    ensures Manhattan(origin, p) <= steps
    decreases steps
  {
    var k :| 0 <= k < 4 && Within(g, origin, Neighbor(p, k), steps - 1);
    if Neighbor(p, k) != origin {
      WithinDiamond(g, origin, Neighbor(p, k), steps - 1);
    }
  }

  /** The cells a unit standing on `origin` with the given speed may move to. */
  function MoveTargets(g: Grid, origin: Pos, speed: int): (t: set<Pos>)
    requires Shaped(g)
    ensures forall p :: p in t <==> p != origin && Within(g, origin, p, speed)
  {
    var t := set p | p in Cells() && p != origin && Within(g, origin, p, speed);
    assert forall p | p != origin && Within(g, origin, p, speed) :: Open(g, p);
    t
  }

  /** Every open cell: the revival targets. */
  function OpenCells(g: Grid): (t: set<Pos>)
    requires Shaped(g)
    ensures forall p :: p in t <==> Open(g, p)
  {
    set p | p in Cells() && Open(g, p)
  }

  /** `queue` and `index` agree: `index` maps each queued cell to its one place in the queue. */
  ghost predicate Indexed(queue: seq<(Pos, int)>, index: map<Pos, int>) {
    (forall p | p in index :: 0 <= index[p] < |queue| && queue[index[p]].0 == p) &&
    (forall i | 0 <= i < |queue| :: queue[i].0 in index && index[queue[i].0] == i)
  }

  /**
   * Queue entry `i`, if its distance is below `speed`, has had each open
   * neighbour queued at a distance at most one more than its own.
   */
  ghost predicate Expanded(g: Grid, queue: seq<(Pos, int)>, index: map<Pos, int>, i: int, speed: int)
    requires Shaped(g) && 0 <= i < |queue|
  {
    queue[i].1 < speed ==>
      forall k | 0 <= k < 4 && Open(g, Neighbor(queue[i].0, k)) ::
        Neighbor(queue[i].0, k) in index && 0 <= index[Neighbor(queue[i].0, k)] < |queue| &&
        queue[index[Neighbor(queue[i].0, k)]].1 <= queue[i].1 + 1
  }

  /** Once every queue entry is expanded, every cell within `steps <= speed` steps is queued, at distance at most `steps`. */
  lemma {:induction false} SearchComplete(g: Grid, origin: Pos, speed: int, queue: seq<(Pos, int)>,
                                          index: map<Pos, int>, p: Pos, steps: int)
    requires Shaped(g) && |queue| > 0 && queue[0] == (origin, 0) && Indexed(queue, index)
    requires forall i | 0 <= i < |queue| :: Expanded(g, queue, index, i, speed)
    requires 0 <= steps <= speed && Within(g, origin, p, steps)
    ensures p in index && queue[index[p]].1 <= steps
    decreases steps
  {
    if p != origin {
      var k :| 0 <= k < 4 && Within(g, origin, Neighbor(p, k), steps - 1);
      var r := Neighbor(p, k);
      SearchComplete(g, origin, speed, queue, index, r, steps - 1);
      assert Expanded(g, queue, index, index[r], speed);
      assert Neighbor(r, Back(k)) == p;
    }
  }

  /** Everything the search keeps true about its queue, its visited set and the highlights found so far. */
  ghost predicate SearchInv(g: Grid, origin: Pos, speed: int, queue: seq<(Pos, int)>, visited: set<Pos>,
                            index: map<Pos, int>, highlights: seq<Pos>)
    requires Shaped(g)
  {
    && 1 <= |queue| && queue[0] == (origin, 0)
    && |highlights| == |queue| - 1
    && (forall i | 0 <= i < |highlights| :: highlights[i] == queue[i + 1].0)
    && visited == index.Keys && Indexed(queue, index)
    && (forall i | 0 <= i < |queue| :: 0 <= queue[i].1 && Within(g, origin, queue[i].0, queue[i].1))
    && (forall i | 1 <= i < |queue| :: queue[i].1 <= speed && InBounds(queue[i].0))
    && (forall i, j | 0 <= i < j < |queue| :: queue[i].1 <= queue[j].1)
  }

  /** `queue'` and `index'` only add to `queue` and `index`. */
  ghost predicate Extends(queue: seq<(Pos, int)>, index: map<Pos, int>, queue': seq<(Pos, int)>, index': map<Pos, int>) {
    |queue| <= |queue'| && queue == queue'[..|queue|] &&
    forall p | p in index :: p in index' && index'[p] == index[p]
  }

  lemma ExpandedKept(g: Grid, speed: int, queue: seq<(Pos, int)>, index: map<Pos, int>,
                     queue': seq<(Pos, int)>, index': map<Pos, int>, n: int)
    requires Shaped(g) && Extends(queue, index, queue', index') && n <= |queue|
    requires forall i | 0 <= i < n :: Expanded(g, queue, index, i, speed)
    ensures forall i | 0 <= i < n :: Expanded(g, queue', index', i, speed)
  {
    forall i | 0 <= i < n
      ensures Expanded(g, queue', index', i, speed)
    {
      assert queue'[i] == queue[i];
      if queue[i].1 < speed {
        forall k | 0 <= k < 4 && Open(g, Neighbor(queue[i].0, k))
          ensures Neighbor(queue[i].0, k) in index' && 0 <= index'[Neighbor(queue[i].0, k)] < |queue'|
          ensures queue'[index'[Neighbor(queue[i].0, k)]].1 <= queue'[i].1 + 1
        {
          assert Expanded(g, queue, index, i, speed);
          var m := index[Neighbor(queue[i].0, k)];
          assert queue'[m] == queue[m];
        }
      }
    }
  }

  /** Queueing an unvisited open neighbour `n` of an entry at distance `d < speed` keeps the search invariant. */
  lemma Enqueue(g: Grid, origin: Pos, speed: int, queue: seq<(Pos, int)>, visited: set<Pos>,
                index: map<Pos, int>, highlights: seq<Pos>, n: Pos, d: int)
    requires Shaped(g) && SearchInv(g, origin, speed, queue, visited, index, highlights)
    requires 0 <= d < speed && Open(g, n) && n !in visited && Within(g, origin, n, d + 1)
    requires forall j | 0 <= j < |queue| :: queue[j].1 <= d + 1
    ensures SearchInv(g, origin, speed, queue + [(n, d + 1)], visited + {n}, index[n := |queue|], highlights + [n])
    ensures Extends(queue, index, queue + [(n, d + 1)], index[n := |queue|])
  {
    var queue', index' := queue + [(n, d + 1)], index[n := |queue|];
    assert Indexed(queue', index') by {
      forall i | 0 <= i < |queue'|
        ensures queue'[i].0 in index' && index'[queue'[i].0] == i
      {
        if i < |queue| {
          assert queue'[i] == queue[i];
          assert queue[i].0 in index;
        }
      }
    }
  }

  /** Each open neighbour of `p` in directions `0 .. k - 1` is queued at distance at most `d + 1`. */
  ghost predicate Reached(g: Grid, p: Pos, k: int, queue: seq<(Pos, int)>, index: map<Pos, int>, d: int)
    requires Shaped(g) && 0 <= k <= 4
  {
    forall j | 0 <= j < k && Open(g, Neighbor(p, j)) ::
      Neighbor(p, j) in index && 0 <= index[Neighbor(p, j)] < |queue| &&
      queue[index[Neighbor(p, j)]].1 <= d + 1
  }

  /** The body of the neighbour loop (page.tsx:96-104) for direction `k`. */
  method TryNeighbor(g: Grid, origin: Pos, speed: int, queue: seq<(Pos, int)>, visited: set<Pos>,
                     ghost index: map<Pos, int>, highlights: seq<Pos>, p: Pos, d: int, k: int)
    returns (queue': seq<(Pos, int)>, visited': set<Pos>, ghost index': map<Pos, int>, highlights': seq<Pos>)
    requires Shaped(g) && SearchInv(g, origin, speed, queue, visited, index, highlights)
    requires 0 <= d < speed && Within(g, origin, p, d) && 0 <= k < 4
    requires forall j | 0 <= j < |queue| :: queue[j].1 <= d + 1
    requires Reached(g, p, k, queue, index, d)
    ensures SearchInv(g, origin, speed, queue', visited', index', highlights')
    ensures Extends(queue, index, queue', index')
    ensures forall j | 0 <= j < |queue'| :: queue'[j].1 <= d + 1
    ensures Reached(g, p, k + 1, queue', index', d)
    ensures |Cells() - visited'| < |Cells() - visited| || (queue' == queue && visited' == visited)
  {
    var n := Neighbor(p, k);
    if InBounds(n) && n !in visited && At(g, n).None? {
      assert Neighbor(n, Back(k)) == p;
      FewerUnvisited(visited, n);
      Enqueue(g, origin, speed, queue, visited, index, highlights, n, d);
      visited' := visited + {n};
      index' := index[n := |queue|];
      highlights' := highlights + [n];
      queue' := queue + [(n, d + 1)];
      forall j | 0 <= j < k + 1 && Open(g, Neighbor(p, j))
        ensures Neighbor(p, j) in index' && 0 <= index'[Neighbor(p, j)] < |queue'|
        ensures queue'[index'[Neighbor(p, j)]].1 <= d + 1
      {
        if j < k {
          assert Neighbor(p, j) in index;
        }
      }
    } else {
      queue', visited', index', highlights' := queue, visited, index, highlights;
      forall j | 0 <= j < k + 1 && Open(g, Neighbor(p, j))
        ensures Neighbor(p, j) in index' && 0 <= index'[Neighbor(p, j)] < |queue'|
        ensures queue'[index'[Neighbor(p, j)]].1 <= d + 1
      {
        if j == k {
          assert n in visited;
        }
      }
      assert queue[..|queue|] == queue;
    }
  }

  /**
   * One turn of the search loop (page.tsx:90-105) for the dequeued entry
   * `(p, d)` with `d < speed`: queue each open, unvisited neighbour at
   * distance `d + 1` and record it as a highlight.
   */
  method ExpandEntry(g: Grid, origin: Pos, speed: int, queue: seq<(Pos, int)>, visited: set<Pos>,
                     ghost index: map<Pos, int>, highlights: seq<Pos>, p: Pos, d: int)
    returns (queue': seq<(Pos, int)>, visited': set<Pos>, ghost index': map<Pos, int>, highlights': seq<Pos>)
    requires Shaped(g) && SearchInv(g, origin, speed, queue, visited, index, highlights)
    requires 0 <= d < speed && Within(g, origin, p, d)
    requires forall j | 0 <= j < |queue| :: queue[j].1 <= d + 1
    ensures SearchInv(g, origin, speed, queue', visited', index', highlights')
    ensures Extends(queue, index, queue', index')
    ensures forall j | 0 <= j < |queue'| :: queue'[j].1 <= d + 1
    ensures Reached(g, p, 4, queue', index', d)
    ensures |Cells() - visited'| < |Cells() - visited| || (queue' == queue && visited' == visited)
  {
    queue', visited', index', highlights' := queue, visited, index, highlights;
    assert queue[..|queue|] == queue;
    for k := 0 to 4
      invariant SearchInv(g, origin, speed, queue', visited', index', highlights')
      invariant Extends(queue, index, queue', index')
      invariant forall j | 0 <= j < |queue'| :: queue'[j].1 <= d + 1
      invariant Reached(g, p, k, queue', index', d)
      invariant |Cells() - visited'| < |Cells() - visited| || (queue' == queue && visited' == visited)
    {
      ghost var q0, i0 := queue', index';
      queue', visited', index', highlights' := TryNeighbor(g, origin, speed, queue', visited', index', highlights', p, d, k);
      ExtendsTrans(queue, index, q0, i0, queue', index');
    }
  }

  lemma FewerUnvisited(visited: set<Pos>, n: Pos)
    requires InBounds(n) && n !in visited
    ensures |Cells() - (visited + {n})| < |Cells() - visited|
  {
    assert Cells() - (visited + {n}) == (Cells() - visited) - {n};
  }

  lemma ExtendsTrans(q1: seq<(Pos, int)>, i1: map<Pos, int>, q2: seq<(Pos, int)>, i2: map<Pos, int>,
                     q3: seq<(Pos, int)>, i3: map<Pos, int>)
    requires Extends(q1, i1, q2, i2) && Extends(q2, i2, q3, i3)
    ensures Extends(q1, i1, q3, i3)
  {
    assert q3[..|q2|][..|q1|] == q3[..|q1|];
  }

  /**
   * The first `head` queue entries have been dequeued and expanded, and no
   * queued distance exceeds one more than the last dequeued one.
   */
  ghost predicate Progress(g: Grid, speed: int, queue: seq<(Pos, int)>, index: map<Pos, int>, head: int)
    requires Shaped(g)
  {
    && 0 <= head <= |queue|
    && (forall j | 0 <= j < |queue| :: queue[j].1 <= (if head == 0 then 0 else queue[head - 1].1 + 1))
    && (forall i | 0 <= i < head :: Expanded(g, queue, index, i, speed))
  }

  /** One iteration of the search loop: dequeue the entry at `head` and expand it unless it is at distance `speed`. */
  method SearchStep(g: Grid, origin: Pos, speed: int, queue: seq<(Pos, int)>, head: int, visited: set<Pos>,
                    ghost index: map<Pos, int>, highlights: seq<Pos>)
    returns (queue': seq<(Pos, int)>, head': int, visited': set<Pos>, ghost index': map<Pos, int>, highlights': seq<Pos>)
    requires Shaped(g) && SearchInv(g, origin, speed, queue, visited, index, highlights)
    requires Progress(g, speed, queue, index, head) && head < |queue|
    ensures SearchInv(g, origin, speed, queue', visited', index', highlights')
    ensures Progress(g, speed, queue', index', head')
    ensures |Cells() - visited'| < |Cells() - visited| ||
            (|Cells() - visited'| == |Cells() - visited| && |queue'| - head' < |queue| - head)
  {
    var p, d := queue[head].0, queue[head].1;
    head' := head + 1;
    HeadBound(g, origin, speed, queue, visited, index, highlights, head);
    if d >= speed {
      queue', visited', index', highlights' := queue, visited, index, highlights;
      Advance(g, speed, queue, index, head);
    } else {
      queue', visited', index', highlights' := ExpandEntry(g, origin, speed, queue, visited, index, highlights, p, d);
      Expanding(g, speed, queue, index, queue', index', head);
    }
  }

  /** Dequeuing the entry at `head` and reaching its neighbours in `queue'` moves the progress invariant past it. */
  lemma Expanding(g: Grid, speed: int, queue: seq<(Pos, int)>, index: map<Pos, int>,
                  queue': seq<(Pos, int)>, index': map<Pos, int>, head: int)
    requires Shaped(g) && Progress(g, speed, queue, index, head) && head < |queue|
    requires Extends(queue, index, queue', index')
    requires Reached(g, queue[head].0, 4, queue', index', queue[head].1)
    requires forall j | 0 <= j < |queue'| :: queue'[j].1 <= queue[head].1 + 1
    ensures Progress(g, speed, queue', index', head + 1)
  {
    ExpandedKept(g, speed, queue, index, queue', index', head);
    ExpandedHere(g, speed, queue, index, queue', index', head);
    assert queue'[head] == queue[head];
    Advance(g, speed, queue', index', head);
  }

  /** No queued distance exceeds one more than the distance at `head`. */
  lemma HeadBound(g: Grid, origin: Pos, speed: int, queue: seq<(Pos, int)>, visited: set<Pos>,
                  index: map<Pos, int>, highlights: seq<Pos>, head: int)
    requires Shaped(g) && SearchInv(g, origin, speed, queue, visited, index, highlights)
    requires Progress(g, speed, queue, index, head) && head < |queue|
    ensures forall j | 0 <= j < |queue| :: queue[j].1 <= queue[head].1 + 1
  {
    if head > 0 {
      assert queue[head - 1].1 <= queue[head].1;
    }
  }

  /** The entry at `head`, once its neighbours are reached, is expanded in the grown queue. */
  lemma ExpandedHere(g: Grid, speed: int, queue: seq<(Pos, int)>, index: map<Pos, int>,
                     queue': seq<(Pos, int)>, index': map<Pos, int>, head: int)
    requires Shaped(g) && Extends(queue, index, queue', index') && 0 <= head < |queue|
    requires Reached(g, queue[head].0, 4, queue', index', queue[head].1)
    ensures Expanded(g, queue', index', head, speed)
  {
    assert queue'[head] == queue[head];
  }

  /** Moving the read position past an expanded entry keeps the progress invariant. */
  lemma Advance(g: Grid, speed: int, queue: seq<(Pos, int)>, index: map<Pos, int>, head: int)
    requires Shaped(g) && 0 <= head < |queue|
    requires forall i | 0 <= i < head :: Expanded(g, queue, index, i, speed)
    requires Expanded(g, queue, index, head, speed)
    requires forall j | 0 <= j < |queue| :: queue[j].1 <= queue[head].1 + 1
    ensures Progress(g, speed, queue, index, head + 1)
  {
  }

  /**
   * The move highlights of SELECT_ACTION "move" (page.tsx:85-106): a
   * breadth-first search from the unit's cell that never enters an
   * occupied or out-of-bounds cell, never revisits a cell, and stops
   * expanding at distance `speed`. The queue is kept whole with a read
   * position `head` in place of `queue.shift()`.
   */
  method MoveHighlights(g: Grid, origin: Pos, speed: int) returns (highlights: seq<Pos>)
    requires Shaped(g)
    ensures forall i, j | 0 <= i < j < |highlights| :: highlights[i] != highlights[j]
    ensures forall p | p in highlights :: Open(g, p) && p != origin
    ensures forall p :: p in highlights <==> p in MoveTargets(g, origin, speed)
  {
    var queue: seq<(Pos, int)> := [(origin, 0)];
    var head := 0;
    var visited: set<Pos> := {origin};
    ghost var index: map<Pos, int> := map[origin := 0];
    highlights := [];
    SearchStart(g, origin, speed);
    while head < |queue|
      invariant SearchInv(g, origin, speed, queue, visited, index, highlights)
      invariant Progress(g, speed, queue, index, head)
      decreases |Cells() - visited|, |queue| - head
    {
      queue, head, visited, index, highlights := SearchStep(g, origin, speed, queue, head, visited, index, highlights);
    }
    SearchDone(g, origin, speed, queue, visited, index, highlights, head);
  }

  /** The search starts with the origin alone queued, at distance 0, and nothing expanded. */
  lemma SearchStart(g: Grid, origin: Pos, speed: int)
    requires Shaped(g)
    ensures SearchInv(g, origin, speed, [(origin, 0)], {origin}, map[origin := 0], [])
    ensures Progress(g, speed, [(origin, 0)], map[origin := 0], 0)
  {
    assert Within(g, origin, origin, 0);
  }

  /** When every queue entry is expanded, the highlights are exactly the move targets, each once. */
  lemma SearchDone(g: Grid, origin: Pos, speed: int, queue: seq<(Pos, int)>, visited: set<Pos>,
                   index: map<Pos, int>, highlights: seq<Pos>, head: int)
    requires Shaped(g) && SearchInv(g, origin, speed, queue, visited, index, highlights)
    requires Progress(g, speed, queue, index, head) && head >= |queue|
    ensures forall i, j | 0 <= i < j < |highlights| :: highlights[i] != highlights[j]
    ensures forall p | p in highlights :: Open(g, p) && p != origin
    ensures forall p :: p in highlights <==> p in MoveTargets(g, origin, speed)
  {
    forall i, j | 0 <= i < j < |highlights|
      ensures highlights[i] != highlights[j]
    {
      assert index[queue[i + 1].0] == i + 1;
    }
    forall p | p in highlights
      ensures p != origin && p in MoveTargets(g, origin, speed)
    {
      var i :| 0 <= i < |highlights| && highlights[i] == p;
      assert index[queue[i + 1].0] == i + 1;
      assert index[queue[0].0] == 0;
      WithinMonotone(g, origin, p, queue[i + 1].1, speed);
    }
    forall p | p in MoveTargets(g, origin, speed)
      ensures p in highlights
    {
      SearchComplete(g, origin, speed, queue, index, p, speed);
      assert index[p] != 0;
      assert highlights[index[p] - 1] == p;
    }
  }

  /** `a` comes before `b` in a row-by-row scan: y outer, x inner. */
  predicate ScanBefore(a: Pos, b: Pos) {
    a.y < b.y || (a.y == b.y && a.x < b.x)
  }

  /**
   * The revival highlights of SELECT_ACTION "special" (page.tsx:129-137):
   * every open cell, listed row by row.
   */
  method OpenCellsInScanOrder(g: Grid) returns (cells: seq<Pos>)
    requires Shaped(g)
    ensures forall i, j | 0 <= i < j < |cells| :: ScanBefore(cells[i], cells[j])
    ensures forall p :: p in cells <==> p in OpenCells(g)
  {
    cells := [];
    for y := 0 to Height
      invariant forall i, j | 0 <= i < j < |cells| :: ScanBefore(cells[i], cells[j])
      invariant forall i | 0 <= i < |cells| :: cells[i].y < y
      invariant forall p :: p in cells <==> Open(g, p) && p.y < y
    {
      for x := 0 to Width
        invariant forall i, j | 0 <= i < j < |cells| :: ScanBefore(cells[i], cells[j])
        invariant forall i | 0 <= i < |cells| :: ScanBefore(cells[i], Pos(x, y))
        invariant forall p :: p in cells <==> Open(g, p) && ScanBefore(p, Pos(x, y))
      {
        if g[y][x].None? {
          cells := cells + [Pos(x, y)];
        }
      }
    }
  }
}
