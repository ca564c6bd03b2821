// One tick of the simulation (main.py:215-220): emission in place, then
// diffusion into a fresh field, then growth of the mold, in that order.
module Simulation {
  import opened Constants
  import opened Fields
  import opened Emitter
  import opened Diffuser
  import opened Growth
  import opened GrowthLoops
  import opened GrowthProperties

  /** The tick on grid g and field f with draws from index k: the grid, field,
    * next draw index and growth count that grow_mold leaves. */
  ghost function TickSpec(g: Grid, f: Field, draws: nat -> real, k: nat): (r: GrowState)
    ensures k <= r.k
  {
    GrowSpec(g, DiffuseSpec(EmitSpec(f, g), g), draws, k)
  }

  /** The state after n ticks from grid g and field f; `growths` is the count of the last tick. */
  ghost function Run(g: Grid, f: Field, draws: nat -> real, k: nat, n: nat): (r: GrowState)
    ensures k <= r.k
    decreases n
  {
    if n == 0 then GrowState(g, f, k, 0)
    else
      var s := Run(g, f, draws, k, n - 1);
      TickSpec(s.grid, s.chem, draws, s.k)
  }

  /** One iteration of the main loop, without the drawing and event handling. */
  method Tick(grid: array2<CellKind>, chemical: array2<real>, draws: nat -> real, k0: nat)
    returns (newGrid: array2<CellKind>, newChem: array2<real>, k: nat, growthCount: nat)
    requires grid.Length0 == GRID_HEIGHT && grid.Length1 == GRID_WIDTH
    requires chemical.Length0 == GRID_HEIGHT && chemical.Length1 == GRID_WIDTH
    modifies chemical
    ensures fresh(newGrid) && newGrid.Length0 == GRID_HEIGHT && newGrid.Length1 == GRID_WIDTH
    ensures fresh(newChem) && newChem.Length0 == GRID_HEIGHT && newChem.Length1 == GRID_WIDTH
    ensures GrowState(Rows(newGrid), Rows(newChem), k, growthCount) ==
            TickSpec(Rows(grid), old(Rows(chemical)), draws, k0)
    ensures Rows(chemical) == EmitSpec(old(Rows(chemical)), Rows(grid))
  {
    EmitChemical(chemical, grid);
    newChem := DiffuseChemical(chemical, grid);
    newGrid, k, growthCount := GrowMold(grid, newChem, draws, k0);
  }

  /** A tick keeps every Food and Obstacle cell, and changes a cell only
    * between Mold and Empty. */
  lemma TickKinds(g: Grid, f: Field, draws: nat -> real, k: nat, i: int, j: int)
    requires InGrid(i, j)
    ensures var r := TickSpec(g, f, draws, k);
      && ((g[i][j] == Food || g[i][j] == Obstacle) ==> r.grid[i][j] == g[i][j])
      && (r.grid[i][j] != g[i][j] ==> (g[i][j] == Mold && r.grid[i][j] == Empty) || (g[i][j] == Empty && r.grid[i][j] == Mold))
  {
    GrowMoldKinds(g, DiffuseSpec(EmitSpec(f, g), g), draws, k, i, j);
  }

  /** Food and Obstacle cells keep their kind forever. */
  lemma {:induction false} RunKeepsFoodAndObstacles(g: Grid, f: Field, draws: nat -> real, k: nat, n: nat, i: int, j: int)
    requires InGrid(i, j) && (g[i][j] == Food || g[i][j] == Obstacle)
    ensures Run(g, f, draws, k, n).grid[i][j] == g[i][j]
  {
    if n > 0 {
      RunKeepsFoodAndObstacles(g, f, draws, k, n - 1, i, j);
      var s := Run(g, f, draws, k, n - 1);
      TickKinds(s.grid, s.chem, draws, s.k, i, j);
    }
  }

  /** After a tick the chemical of an interior Obstacle cell is 0, and that of
    * a Food cell is what emission left it, at most 15. */
  lemma TickFixedCellsChemical(g: Grid, f: Field, draws: nat -> real, k: nat, i: int, j: int)
    requires InGrid(i, j)
    ensures var r := TickSpec(g, f, draws, k);
      && (Interior(i, j) && g[i][j] == Obstacle ==> r.chem[i][j] == 0.0)
      && (g[i][j] == Food ==> r.chem[i][j] == EmitSpec(f, g)[i][j] <= 15.0)
  {
    var e := EmitSpec(f, g);
    var d := DiffuseSpec(e, g);
    GrowMoldChemical(g, d, draws, k, i, j);
    assert d[i][j] == DiffuseAt(e, g, i, j);
    if g[i][j] == Food {
      assert Abs(i - i) <= 2;
      EmitFrame(f, g, i, j);
    }
  }

  /** After a tick an interior Empty cell holds chemical in [0, 15] and an
    * interior Mold cell chemical in [0, 20]: upkeep caps at 25, but it adds 5
    * to a diffused value that is at most 15. */
  lemma TickInteriorBounds(g: Grid, f: Field, draws: nat -> real, k: nat, i: int, j: int)
    requires Interior(i, j)
    ensures var r := TickSpec(g, f, draws, k);
      && (g[i][j] == Empty ==> 0.0 <= r.chem[i][j] <= 15.0)
      && (g[i][j] == Mold ==> 0.0 <= r.chem[i][j] <= 20.0)
  {
    var e := EmitSpec(f, g);
    var d := DiffuseSpec(e, g);
    GrowMoldChemical(g, d, draws, k, i, j);
    assert d[i][j] == DiffuseAt(e, g, i, j);
  }

  /** Border cells are not clipped: a zero corner cell next to a lone Food
    * cell at (2, 2) ends the tick at -5/3, whatever its kind. */
  lemma TickBorderCanGoNegative(g: Grid, f: Field, draws: nat -> real, k: nat)
    requires g[2][2] == Food && f[0][0] == 0.0
    requires forall c, d :: InGrid(c, d) && Abs(c) <= 2 && Abs(d) <= 2 && g[c][d] == Food ==> c == 2 && d == 2
    ensures TickSpec(g, f, draws, k).chem[0][0] == -5.0 / 3.0
  {
    var e := EmitSpec(f, g);
    var d := DiffuseSpec(e, g);
    EmitSingleSource(f, g, 0, 0, 2, 2);
    assert d[0][0] == DiffuseAt(e, g, 0, 0) == e[0][0];
    GrowMoldChemical(g, d, draws, k, 0, 0);
  }

  /** From the first tick on, every interior Obstacle cell holds no chemical. */
  lemma RunObstaclesEmpty(g: Grid, f: Field, draws: nat -> real, k: nat, n: nat, i: int, j: int)
    requires n >= 1 && Interior(i, j) && g[i][j] == Obstacle
    ensures Run(g, f, draws, k, n).chem[i][j] == 0.0
  {
    RunKeepsFoodAndObstacles(g, f, draws, k, n - 1, i, j);
    var s := Run(g, f, draws, k, n - 1);
    TickFixedCellsChemical(s.grid, s.chem, draws, s.k, i, j);
  }
}
