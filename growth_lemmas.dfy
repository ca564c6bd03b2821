// What grow_mold (main.py:65-139) guarantees, proved about its specification
// in module Growth.
module GrowthProperties {
  import opened Constants
  import opened Fields
  import opened Growth

  /** Some interior cell visited before (y, x) that is Mold in the input grid
    * is an axis neighbour of (i, j). */
  ghost predicate SourceBefore(g: Grid, i: int, j: int, y: int, x: int) {
    exists a, b :: Visited(a, b, y, x) && g[a][b] == Mold && Abs(a - i) + Abs(b - j) == 1
  }

  /** (i, j) is an axis neighbour of an interior cell that is Mold in g. */
  ghost predicate HasMoldSource(g: Grid, i: int, j: int) {
    exists a, b :: Interior(a, b) && g[a][b] == Mold && Abs(a - i) + Abs(b - j) == 1
  }

  /** Number of interior Mold cells of g visited before (y, x). */
  function MoldSources(g: Grid, y: int, x: int): nat
    requires InteriorPoint(y, x)
    decreases y, x
  {
    if x == 1 then
      (if y == 1 then 0 else MoldSources(g, y - 1, GRID_WIDTH - 1))
    else
      MoldSources(g, y, x - 1) + (if g[y][x - 1] == Mold then 1 else 0)
  }

  /** The upkeep pass visits each interior Mold cell of the input grid once:
    * its chemical becomes the upkept value, and it may turn Empty only when
    * no Food is in its window and the decayed value is below 0.5. Every
    * other cell is left alone, and no growth is counted. */
  lemma {:induction false} UpkeepSweepAt(g: Grid, draws: nat -> real, s: GrowState, y: int, x: int, i: int, j: int)
    requires InteriorPoint(y, x) && InGrid(i, j)
    ensures var r := Sweep(Upkeep, g, draws, s, y, x);
      && r.growths == s.growths && s.k <= r.k <= s.k + MoldSources(g, y, x)
      && (Visited(i, j, y, x) && g[i][j] == Mold ==>
            r.chem[i][j] == Upkept(FoodNear(g, i, j, 8), s.chem[i][j]) &&
            (r.grid[i][j] == s.grid[i][j] ||
             (r.grid[i][j] == Empty && !FoodNear(g, i, j, 8) && s.chem[i][j] * 0.98 < 0.5)))
      && (!(Visited(i, j, y, x) && g[i][j] == Mold) ==> r.chem[i][j] == s.chem[i][j] && r.grid[i][j] == s.grid[i][j])
    decreases y, x
  {
    if x == 1 {
      if y > 1 {
        UpkeepSweepAt(g, draws, s, y - 1, GRID_WIDTH - 1, i, j);
      }
    } else {
      UpkeepSweepAt(g, draws, s, y, x - 1, i, j);
    }
  }

  /** Growth from one source (y, x) changes a cell only if it is Empty in the
    * input grid, the source is Mold there and the cell is its axis neighbour. */
  lemma GrowCellAt(g: Grid, draws: nat -> real, t: GrowState, y: int, x: int, i: int, j: int)
    requires Interior(y, x) && InGrid(i, j)
    ensures var r := GrowCell(g, draws, t, y, x);
      && t.k <= r.k
      && (r.grid[i][j] != t.grid[i][j] || r.chem[i][j] != t.chem[i][j] ==>
            g[i][j] == Empty && g[y][x] == Mold && Abs(y - i) + Abs(x - j) == 1 &&
            r.grid[i][j] == Mold && r.chem[i][j] <= 15.0)
      && (0.0 <= t.chem[i][j] ==> 0.0 <= r.chem[i][j])
  {
    if g[y][x] == Mold {
      ChooseBestValid(g, t.chem, draws, y, x, 4, t.k);
    }
  }

  /** The growth pass changes a cell only if it is Empty in the input grid and
    * next to an interior Mold source already visited: the cell becomes Mold and
    * its chemical is at most 15; a Mold cell stays Mold; a non-negative
    * chemical stays non-negative. */
  lemma {:induction false} GrowSweepAt(g: Grid, draws: nat -> real, s: GrowState, y: int, x: int, i: int, j: int)
    requires InteriorPoint(y, x) && InGrid(i, j)
    ensures var r := Sweep(Growth, g, draws, s, y, x);
      && s.k <= r.k
      && (r.grid[i][j] != s.grid[i][j] ==> g[i][j] == Empty && r.grid[i][j] == Mold && SourceBefore(g, i, j, y, x))
      && (r.chem[i][j] != s.chem[i][j] ==>
            g[i][j] == Empty && r.grid[i][j] == Mold && r.chem[i][j] <= 15.0 && SourceBefore(g, i, j, y, x))
      && (s.grid[i][j] == Mold ==> r.grid[i][j] == Mold)
      && (0.0 <= s.chem[i][j] ==> 0.0 <= r.chem[i][j])
    decreases y, x
  {
    if x == 1 {
      if y > 1 {
        GrowSweepAt(g, draws, s, y - 1, GRID_WIDTH - 1, i, j);
        assert SourceBefore(g, i, j, y - 1, GRID_WIDTH - 1) ==> SourceBefore(g, i, j, y, x);
      }
    } else {
      GrowSweepAt(g, draws, s, y, x - 1, i, j);
      assert SourceBefore(g, i, j, y, x - 1) ==> SourceBefore(g, i, j, y, x);
      var t := Sweep(Growth, g, draws, s, y, x - 1);
      GrowCellAt(g, draws, t, y, x - 1, i, j);
      assert Visited(y, x - 1, y, x);
    }
  }

  /** Each Mold source adds at most one growth and consumes at most four draws. */
  lemma {:induction false} GrowthCountBound(g: Grid, draws: nat -> real, s: GrowState, y: int, x: int)
    requires InteriorPoint(y, x)
    ensures var r := Sweep(Growth, g, draws, s, y, x);
      s.growths <= r.growths <= s.growths + MoldSources(g, y, x) && r.k <= s.k + 4 * MoldSources(g, y, x)
    decreases y, x
  {
    if x == 1 {
      if y > 1 {
        GrowthCountBound(g, draws, s, y - 1, GRID_WIDTH - 1);
      }
    } else {
      GrowthCountBound(g, draws, s, y, x - 1);
    }
  }

  /** grow_mold leaves Food and Obstacle cells as they are; every other change
    * is either the death of an interior Mold cell with no Food in its window
    * and a decayed chemical below 0.5, or the birth of Mold in a cell that was
    * Empty and is next to an interior Mold cell of the input grid. In
    * particular a border cell can only change by becoming Mold. */
  lemma GrowMoldKinds(g: Grid, f: Field, draws: nat -> real, k: nat, i: int, j: int)
    requires InGrid(i, j)
    ensures var r := GrowSpec(g, f, draws, k);
      && ((g[i][j] == Food || g[i][j] == Obstacle) ==> r.grid[i][j] == g[i][j])
      && (r.grid[i][j] != g[i][j] ==>
            (Interior(i, j) && g[i][j] == Mold && r.grid[i][j] == Empty && !FoodNear(g, i, j, 8) && f[i][j] * 0.98 < 0.5) ||
            (g[i][j] == Empty && r.grid[i][j] == Mold && HasMoldSource(g, i, j)))
  {
    var s0 := GrowState(g, f, k, 0);
    var s1 := Sweep(Upkeep, g, draws, s0, GRID_HEIGHT - 1, 1);
    UpkeepSweepAt(g, draws, s0, GRID_HEIGHT - 1, 1, i, j);
    GrowSweepAt(g, draws, s1, GRID_HEIGHT - 1, 1, i, j);
  }

  /** grow_mold's effect on the chemical field: an interior Mold cell ends with
    * its upkept value (min(c + 5, 25) near food, 0.98 c otherwise); Food,
    * Obstacle and border Mold cells keep theirs; an Empty cell changes only as
    * a growth target, to at most 15, and never becomes negative. */
  lemma GrowMoldChemical(g: Grid, f: Field, draws: nat -> real, k: nat, i: int, j: int)
    requires InGrid(i, j)
    ensures var r := GrowSpec(g, f, draws, k);
      && (Interior(i, j) && g[i][j] == Mold ==> r.chem[i][j] == Upkept(FoodNear(g, i, j, 8), f[i][j]))
      && (g[i][j] != Empty && !(Interior(i, j) && g[i][j] == Mold) ==> r.chem[i][j] == f[i][j])
      && (g[i][j] == Empty && r.chem[i][j] != f[i][j] ==> r.grid[i][j] == Mold && r.chem[i][j] <= 15.0 && HasMoldSource(g, i, j))
      && (g[i][j] == Empty && 0.0 <= f[i][j] ==> 0.0 <= r.chem[i][j])
  {
    var s0 := GrowState(g, f, k, 0);
    var s1 := Sweep(Upkeep, g, draws, s0, GRID_HEIGHT - 1, 1);
    UpkeepSweepAt(g, draws, s0, GRID_HEIGHT - 1, 1, i, j);
    GrowSweepAt(g, draws, s1, GRID_HEIGHT - 1, 1, i, j);
  }

  /** grow_mold consumes draws from index k onwards, at most five per interior
    * Mold cell of the input grid, and counts at most one growth per such cell. */
  lemma GrowMoldCounts(g: Grid, f: Field, draws: nat -> real, k: nat)
    ensures var r := GrowSpec(g, f, draws, k);
      k <= r.k <= k + 5 * MoldSources(g, GRID_HEIGHT - 1, 1) && r.growths <= MoldSources(g, GRID_HEIGHT - 1, 1)
  {
    var s0 := GrowState(g, f, k, 0);
    var s1 := Sweep(Upkeep, g, draws, s0, GRID_HEIGHT - 1, 1);
    UpkeepSweepAt(g, draws, s0, GRID_HEIGHT - 1, 1, 0, 0);
    GrowSweepAt(g, draws, s1, GRID_HEIGHT - 1, 1, 0, 0);
    GrowthCountBound(g, draws, s1, GRID_HEIGHT - 1, 1);
  }
}
