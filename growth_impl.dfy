// The loops of grow_mold (main.py), proved against the specification in
// module Growth.
module GrowthLoops {
  import opened Constants
  import opened Fields
  import opened Growth

  /** The search of lines 75-84: is there a Food cell in the window of radius 8
    * around (y, x), clipped to the grid? Stops at the first one found. */
  method NearFood(grid: array2<CellKind>, y: int, x: int) returns (nearFood: bool)
    requires grid.Length0 == GRID_HEIGHT && grid.Length1 == GRID_WIDTH
    ensures nearFood == FoodNear(Rows(grid), y, x, 8)
  {
    ghost var g: Grid := Rows(grid);
    nearFood := false;
    for dy := -8 to 9
      invariant !nearFood
      invariant forall a, b :: InGrid(a, b) && y - 8 <= a < y + dy && Abs(b - x) <= 8 ==> g[a][b] != Food
    {
      for dx := -8 to 9
        invariant !nearFood
        invariant forall a, b :: InGrid(a, b) && a == y + dy && x - 8 <= b < x + dx ==> g[a][b] != Food
      {
        var ny, nx := y + dy, x + dx;
        if 0 <= ny < GRID_HEIGHT && 0 <= nx < GRID_WIDTH && grid[ny, nx] == Food {
          assert g[ny][nx] == Food && Abs(ny - y) <= 8 && Abs(nx - x) <= 8;
          nearFood := true;
          break;
        }
      }
      if nearFood {
        break;
      }
    }
  }

  /** The scan of lines 111-117: Manhattan distance from (ny, nx) to the
    * nearest Food cell, None standing for float('inf'). */
  method NearestFoodDistance(grid: array2<CellKind>, ny: int, nx: int) returns (minFoodDist: Option<nat>)
    requires grid.Length0 == GRID_HEIGHT && grid.Length1 == GRID_WIDTH
    ensures minFoodDist == NearestFood(Rows(grid), ny, nx)
  {
    ghost var g: Grid := Rows(grid);
    minFoodDist := None;
    for fy := 0 to GRID_HEIGHT
      invariant minFoodDist == NearestFoodBefore(g, ny, nx, fy, 0)
    {
      for fx := 0 to GRID_WIDTH
        invariant minFoodDist == NearestFoodBefore(g, ny, nx, fy, fx)
      {
        if grid[fy, fx] == Food {
          var dist := Abs(ny - fy) + Abs(nx - fx);
          minFoodDist := Some(MinDist(minFoodDist, dist));
        }
      }
    }
  }

  /** The arrays and counters of grow_mold hold the state s. */
  ghost predicate Tracks(newGrid: array2<CellKind>, chemical: array2<real>, k: nat, growthCount: nat, s: GrowState)
    reads newGrid, chemical
  {
    Holds(newGrid, s.grid) && Holds(chemical, s.chem) && k == s.k && growthCount == s.growths
  }

  /** grow_mold: returns the new grid, the index of the next unused draw and
    * the number of growths; updates the chemical field in place. */
  method GrowMold(grid: array2<CellKind>, chemical: array2<real>, draws: nat -> real, k0: nat)
    returns (newGrid: array2<CellKind>, k: nat, growthCount: nat)
    requires grid.Length0 == GRID_HEIGHT && grid.Length1 == GRID_WIDTH
    requires chemical.Length0 == GRID_HEIGHT && chemical.Length1 == GRID_WIDTH
    modifies chemical
    ensures fresh(newGrid) && newGrid.Length0 == GRID_HEIGHT && newGrid.Length1 == GRID_WIDTH
    ensures GrowState(Rows(newGrid), Rows(chemical), k, growthCount) ==
            GrowSpec(Rows(grid), old(Rows(chemical)), draws, k0)
  {
    ghost var g: Grid := Rows(grid);
    ghost var f: Field := Rows(chemical);
    newGrid := new CellKind[GRID_HEIGHT, GRID_WIDTH]((i, j) requires 0 <= i < GRID_HEIGHT && 0 <= j < GRID_WIDTH
                                                       reads grid => grid[i, j]);
    growthCount := 0;
    k := k0;
    ghost var s0 := GrowState(g, f, k0, 0);

    // Upkeep of the existing mold
    for y := 1 to GRID_HEIGHT - 1
      invariant Tracks(newGrid, chemical, k, growthCount, Sweep(Upkeep, g, draws, s0, y, 1))
    {
      for x := 1 to GRID_WIDTH - 1
        invariant Tracks(newGrid, chemical, k, growthCount, Sweep(Upkeep, g, draws, s0, y, x))
      {
        if grid[y, x] == Mold {
          k := UpkeepMold(grid, newGrid, chemical, draws, k, y, x, Sweep(Upkeep, g, draws, s0, y, x));
        }
      }
    }
    ghost var s1 := Sweep(Upkeep, g, draws, s0, GRID_HEIGHT - 1, 1);

    // Directed growth
    for y := 1 to GRID_HEIGHT - 1
      invariant Tracks(newGrid, chemical, k, growthCount, Sweep(Growth, g, draws, s1, y, 1))
    {
      for x := 1 to GRID_WIDTH - 1
        invariant Tracks(newGrid, chemical, k, growthCount, Sweep(Growth, g, draws, s1, y, x))
      {
        if grid[y, x] == Mold {
          k, growthCount := GrowFrom(grid, newGrid, chemical, draws, k, growthCount, y, x,
                                     Sweep(Growth, g, draws, s1, y, x));
        }
      }
    }
    HoldsRows(newGrid, GrowSpec(g, f, draws, k0).grid);
    HoldsRows(chemical, GrowSpec(g, f, draws, k0).chem);
  }

  /** Lines 74-94 for the Mold cell (y, x): reinforce near food, otherwise
    * decay and, when the decayed value is below 0.5, draw to decide death. */
  method UpkeepMold(grid: array2<CellKind>, newGrid: array2<CellKind>, chemical: array2<real>,
                    draws: nat -> real, k: nat, y: int, x: int, ghost s: GrowState) returns (k': nat)
    requires grid.Length0 == GRID_HEIGHT && grid.Length1 == GRID_WIDTH
    requires newGrid != grid && Interior(y, x) && grid[y, x] == Mold
    requires Tracks(newGrid, chemical, k, s.growths, s)
    modifies newGrid, chemical
    ensures Tracks(newGrid, chemical, k', s.growths, UpkeepCell(Rows(grid), draws, s, y, x))
  {
    ghost var g: Grid := Rows(grid);
    k' := k;
    var nearFood := NearFood(grid, y, x);
    if nearFood {
      chemical[y, x] := Min(chemical[y, x] + 5.0, 25.0);
    } else {
      chemical[y, x] := chemical[y, x] * 0.98;
      if chemical[y, x] < 0.5 {
        var r := draws(k');
        k' := k' + 1;
        if r < 0.01 {
          newGrid[y, x] := Empty;
        }
      }
    }
  }

  /** Lines 100-130 for the Mold cell (y, x): score the Empty neighbours of
    * the input grid and keep the best one that beats 1.5 and passes the random
    * gate; the draws are consumed from index k. */
  method ChooseNeighbor(grid: array2<CellKind>, chemical: array2<real>, draws: nat -> real, k: nat, y: int, x: int)
    returns (bestNeighbor: Option<(int, int)>, bestScore: real, k': nat)
    requires grid.Length0 == GRID_HEIGHT && grid.Length1 == GRID_WIDTH
    requires chemical.Length0 == GRID_HEIGHT && chemical.Length1 == GRID_WIDTH
    requires Interior(y, x)
    ensures Choice(bestNeighbor, bestScore, k') == ChooseBest(Rows(grid), Rows(chemical), draws, y, x, 4, k)
  {
    ghost var g: Grid := Rows(grid);
    ghost var chem: Field := Rows(chemical);
    k' := k;
    var neighbors := [(y - 1, x), (y + 1, x), (y, x - 1), (y, x + 1)];
    bestNeighbor := None;
    bestScore := 0.0;
    for n := 0 to 4
      invariant Choice(bestNeighbor, bestScore, k') == ChooseBest(g, chem, draws, y, x, n, k)
    {
      var ny, nx := neighbors[n].0, neighbors[n].1;
      if grid[ny, nx] == Empty {
        var chemScore := chemical[ny, nx];
        var foodBonus := 0.0;
        var minFoodDist := NearestFoodDistance(grid, ny, nx);
        if minFoodDist.Some? && minFoodDist.value < 40 {
          foodBonus := 2.0 / (minFoodDist.value + 1) as real;
        }
        var totalScore := chemScore + foodBonus;
        assert chemScore == chem[ny][nx] && foodBonus == FoodBonus(minFoodDist);
        if totalScore > bestScore && totalScore > 1.5 {
          var r := draws(k');
          k' := k' + 1;
          if r < 0.4 {
            bestNeighbor := Some((ny, nx));
            bestScore := totalScore;
          }
        }
      }
    }
  }

  /** Lines 131-135 for the Mold cell (y, x): grow into the chosen neighbour,
    * count the growth and seed the new cell's chemical (+5, capped at 15). */
  method GrowFrom(grid: array2<CellKind>, newGrid: array2<CellKind>, chemical: array2<real>,
                  draws: nat -> real, k: nat, growthCount: nat, y: int, x: int, ghost s: GrowState)
    returns (k': nat, growthCount': nat)
    requires grid.Length0 == GRID_HEIGHT && grid.Length1 == GRID_WIDTH
    requires newGrid != grid && Interior(y, x) && grid[y, x] == Mold
    requires Tracks(newGrid, chemical, k, growthCount, s)
    modifies newGrid, chemical
    ensures Tracks(newGrid, chemical, k', growthCount', GrowCell(Rows(grid), draws, s, y, x))
  {
    HoldsRows(chemical, s.chem);
    ghost var g: Grid := Rows(grid);
    var bestNeighbor, bestScore;
    bestNeighbor, bestScore, k' := ChooseNeighbor(grid, chemical, draws, k, y, x);
    ghost var c := ChooseBest(g, s.chem, draws, y, x, 4, k);
    assert bestNeighbor == c.best && k' == c.k;
    growthCount' := growthCount;
    if bestNeighbor.Some? {
      var ty, tx := bestNeighbor.value.0, bestNeighbor.value.1;
      assert InGrid(ty, tx);
      ghost var after := GrowState(Set(s.grid, ty, tx, Mold), Set(s.chem, ty, tx, Min(s.chem[ty][tx] + 5.0, 15.0)),
                                   k', s.growths + 1);
      assert GrowCell(g, draws, s, y, x) == after;
      newGrid[ty, tx] := Mold;
      growthCount' := growthCount' + 1;
      chemical[ty, tx] := Min(chemical[ty, tx] + 5.0, 15.0);
      assert Holds(newGrid, after.grid);
    } else {
      assert GrowCell(g, draws, s, y, x) == s.(k := k');
    }
  }
}
