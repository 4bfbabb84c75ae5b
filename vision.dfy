/**
 * Fog of war (src/app/game/page.tsx:426-450 and the `visibleGrid` and
 * `playerVisibleGrid` memos at :625-671): a cell is visible when it lies
 * within Manhattan distance `range + 2` of one of the human player's
 * units, and every cell is visible while the opponent is playing.
 */
module Vision {
  import opened Common
  import opened Board
  import opened Model

  /** How far a unit sees: its attack range plus two. */
  function VisionRange(u: Unit): int {
    u.stats.range + 2
  }

  /** Some unit of `players` sees `p`. */
  function Seen(players: seq<Unit>, p: Pos): (r: bool)
    ensures r <==> exists i | 0 <= i < |players| :: Manhattan(players[i].position, p) <= VisionRange(players[i])
  {
    if players == [] then false
    else
      assert forall i | 1 <= i < |players| :: players[i] == players[1..][i - 1];
      Manhattan(players[0].position, p) <= VisionRange(players[0]) || Seen(players[1..], p)
  }

  /** The visibility grid: everything when `revealAll`, otherwise the union of the players' vision disks. */
  function VisionMask(players: seq<Unit>, revealAll: bool): (m: seq<seq<bool>>)
    ensures Shaped(m)
    ensures forall p | InBounds(p) :: At(m, p) == (revealAll || Seen(players, p))
  {
    seq(Height, y => seq(Width, x => revealAll || Seen(players, Pos(x, y))))
  }

  /**
   * Marks every cell of `visible` within distance `reach` of `(x, y)`
   * (the two inner loops at page.tsx:440-448 and :634-642), scanning
   * the bounding square and keeping the cells inside the disk.
   */
  method MarkDisk(visible: array2<bool>, x: int, y: int, reach: int)
    requires visible.Length0 == Height && visible.Length1 == Width
    modifies visible
    ensures forall j, i | 0 <= j < Height && 0 <= i < Width ::
              visible[j, i] == (old(visible[j, i]) || Manhattan(Pos(x, y), Pos(i, j)) <= reach)
  {
    var i := x - reach;
    while i <= x + reach
      invariant reach < 0 || i <= x + reach + 1
      invariant x - reach <= i
      invariant forall jj, ii | 0 <= jj < Height && 0 <= ii < Width ::
                  visible[jj, ii] == (old(visible[jj, ii]) || (ii < i && Manhattan(Pos(x, y), Pos(ii, jj)) <= reach))
      decreases x + reach - i
    {
      var j := y - reach;
      while j <= y + reach
        invariant y - reach <= j <= y + reach + 1
        invariant forall jj, ii | 0 <= jj < Height && 0 <= ii < Width ::
                    visible[jj, ii] == (old(visible[jj, ii]) ||
                                        ((ii < i || (ii == i && jj < j)) && Manhattan(Pos(x, y), Pos(ii, jj)) <= reach))
        decreases y + reach - j
      {
        if 0 <= i < Width && 0 <= j < Height {
          if Abs(x - i) + Abs(y - j) <= reach {
            visible[j, i] := true;
          }
        }
        j := j + 1;
      }
      i := i + 1;
    }
  }

  /**
   * The visibility grid END_TURN stores (page.tsx:426-450) and the
   * `visibleGrid` memo recomputes (page.tsx:625-654): start all hidden,
   * mark each player unit's vision disk, and reveal everything when
   * `revealAll`. It equals `VisionMask`.
   */
  method ComputeVisibility(players: seq<Unit>, revealAll: bool) returns (visible: array2<bool>)
    ensures fresh(visible)
    ensures visible.Length0 == Height && visible.Length1 == Width
    ensures forall j, i | 0 <= j < Height && 0 <= i < Width ::
              visible[j, i] == At(VisionMask(players, revealAll), Pos(i, j))
  {
    visible := new bool[Height, Width]((j, i) => false);
    for n := 0 to |players|
      invariant forall j, i | 0 <= j < Height && 0 <= i < Width :: visible[j, i] == Seen(players[..n], Pos(i, j))
    {
      var u := players[n];
      MarkDisk(visible, u.position.x, u.position.y, VisionRange(u));
      SeenOneMore(players, n);
    }
    assert players[..|players|] == players;
    if revealAll {
      RevealAll(visible);
    }
  }

  /** Seeing with the first `n + 1` players is seeing with the first `n` or within the vision range of player `n`. */
  lemma SeenOneMore(players: seq<Unit>, n: int)
    requires 0 <= n < |players|
    ensures forall p :: Seen(players[..n + 1], p) == (Seen(players[..n], p) || Manhattan(players[n].position, p) <= VisionRange(players[n]))
  {
    assert forall m | 0 <= m < n :: players[..n + 1][m] == players[..n][m];
    assert players[..n + 1][n] == players[n];
  }

  /** The opponent-turn branch of the `visibleGrid` memo (page.tsx:644-651): every cell becomes visible. */
  method RevealAll(visible: array2<bool>)
    requires visible.Length0 == Height && visible.Length1 == Width
    modifies visible
    ensures forall j, i | 0 <= j < Height && 0 <= i < Width :: visible[j, i]
  {
    for y := 0 to Height
      invariant forall j, i | 0 <= j < y && 0 <= i < Width :: visible[j, i]
    {
      for x := 0 to Width
        invariant forall j, i | 0 <= j < Height && 0 <= i < Width && (j < y || (j == y && i < x)) :: visible[j, i]
      {
        visible[y, x] := true;
      }
    }
  }

  /**
   * `playerVisibleGrid` (page.tsx:657-671): the grid as the human player
   * sees it. On the player's turn a cell shows its unit only when
   * visible; on the opponent's turn every cell shows its unit.
   */
  function MaskedGrid(g: Grid, visible: seq<seq<bool>>, current: Player): (r: Grid)
    requires Shaped(g) && Shaped(visible)
    ensures Shaped(r)
    ensures forall p | InBounds(p) ::
              At(r, p) == (if current == Opponent || At(visible, p) then At(g, p) else None)
  {
    seq(Height, y requires 0 <= y < Height =>
      seq(Width, x requires 0 <= x < Width =>
        if current == Human && visible[y][x] then g[y][x]
        else if current == Opponent then g[y][x]
        else None))
  }
}
