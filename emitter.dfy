// Emission of chemical by Food cells (emit_chemical in main.py): every Food
// cell, visited in row-major order, adds a distance-weighted amount to each
// in-grid cell of the 5x5 box around it, capping each write at 15.
module Emitter {
  import opened Constants
  import opened Fields

  /** Amount written at Manhattan offset (dy, dx) from a Food cell: falls
    * linearly from EMISSION_INTENSITY, is zero at distance 3 and negative
    * at the corners of the box. */
  function Emission(dy: int, dx: int): (e: real)
    ensures Abs(dy) + Abs(dx) < 3 ==> 0.0 < e <= EMISSION_INTENSITY
    ensures Abs(dy) + Abs(dx) == 3 ==> e == 0.0
    ensures Abs(dy) + Abs(dx) > 3 ==> e < 0.0
    ensures Abs(dy) == 0 && Abs(dx) == 0 ==> e == EMISSION_INTENSITY
  {
    EMISSION_INTENSITY * (3 - (Abs(dy) + Abs(dx))) as real / 3.0
  }

  /** One write: offset (dy, dx) from the Food cell (y, x); skipped off the grid. */
  function EmitAt(f: Field, y: int, x: int, dy: int, dx: int): (r: Field)
    ensures !InGrid(y + dy, x + dx) ==> r == f
    ensures InGrid(y + dy, x + dx) ==> r[y + dy][x + dx] <= 15.0 && r[y + dy][x + dx] <= f[y + dy][x + dx] + Emission(dy, dx)
  {
    var ny, nx := y + dy, x + dx;
    if InGrid(ny, nx) then Set(f, ny, nx, Min(f[ny][nx] + Emission(dy, dx), 15.0)) else f
  }

  /** The writes for offsets dx = -2 .. n-3 of row dy of the box around (y, x). */
  function EmitRow(f: Field, y: int, x: int, dy: int, n: nat): Field
    requires n <= 5
  {
    if n == 0 then f else EmitAt(EmitRow(f, y, x, dy, n - 1), y, x, dy, n - 3)
  }

  /** The writes for rows dy = -2 .. m-3 of the box around (y, x). */
  function EmitBox(f: Field, y: int, x: int, m: nat): Field
    requires m <= 5
  {
    if m == 0 then f else EmitRow(EmitBox(f, y, x, m - 1), y, x, m - 3, 5)
  }

  /** The field after the emission of every Food cell before (y, x). */
  function EmitSweep(f: Field, g: Grid, y: int, x: int): Field
    requires SweepPoint(y, x)
    decreases y, x
  {
    if x == 0 then
      (if y == 0 then f else EmitSweep(f, g, y - 1, GRID_WIDTH))
    else
      var h := EmitSweep(f, g, y, x - 1);
      if g[y][x - 1] == Food then EmitBox(h, y, x - 1, 5) else h
  }

  /** The field after emit_chemical. */
  function EmitSpec(f: Field, g: Grid): Field {
    EmitSweep(f, g, GRID_HEIGHT, 0)
  }

  /** Some Food cell before (y, x) in row-major order lies within Chebyshev distance 2 of (i, j). */
  ghost predicate FedBefore(g: Grid, i: int, j: int, y: int, x: int) {
    exists a, b :: InGrid(a, b) && Before(a, b, y, x) && Abs(a - i) <= 2 && Abs(b - j) <= 2 && g[a][b] == Food
  }

  /** emit_chemical, in place. */
  method EmitChemical(chemical: array2<real>, grid: array2<CellKind>)
    requires chemical.Length0 == GRID_HEIGHT && chemical.Length1 == GRID_WIDTH
    requires grid.Length0 == GRID_HEIGHT && grid.Length1 == GRID_WIDTH
    modifies chemical
    ensures Rows(chemical) == EmitSpec(old(Rows(chemical)), Rows(grid))
  {
    ghost var f0: Field := Rows(chemical);
    ghost var g: Grid := Rows(grid);
    for y := 0 to GRID_HEIGHT
      invariant Holds(chemical, EmitSweep(f0, g, y, 0))
    {
      for x := 0 to GRID_WIDTH
        invariant Holds(chemical, EmitSweep(f0, g, y, x))
      {
        if grid[y, x] == Food {
          EmitAround(chemical, y, x, EmitSweep(f0, g, y, x));
        }
      }
    }
    HoldsRows(chemical, EmitSweep(f0, g, GRID_HEIGHT, 0));
  }

  /** The two inner loops of emit_chemical: the 5x5 box around the Food cell (y, x). */
  method EmitAround(chemical: array2<real>, y: int, x: int, ghost h: Field)
    requires Holds(chemical, h)
    modifies chemical
    ensures Holds(chemical, EmitBox(h, y, x, 5))
  {
    for dy := -2 to 3
      invariant Holds(chemical, EmitBox(h, y, x, dy + 2))
    {
      for dx := -2 to 3
        invariant Holds(chemical, EmitRow(EmitBox(h, y, x, dy + 2), y, x, dy, dx + 2))
      {
        var ny, nx := y + dy, x + dx;
        if 0 <= ny < GRID_HEIGHT && 0 <= nx < GRID_WIDTH {
          var distance := Abs(dy) + Abs(dx);
          var emission := EMISSION_INTENSITY * (3 - distance) as real / 3.0;
          chemical[ny, nx] := Min(chemical[ny, nx] + emission, 15.0);
        }
      }
    }
  }

  /** Within one row of the box each in-grid cell is written once. */
  lemma {:induction false} EmitRowAt(f: Field, y: int, x: int, dy: int, n: nat, i: int, j: int)
    requires n <= 5 && InGrid(i, j)
    ensures i == y + dy && x - 2 <= j < x - 2 + n ==>
              EmitRow(f, y, x, dy, n)[i][j] == Min(f[i][j] + Emission(dy, j - x), 15.0)
    ensures !(i == y + dy && x - 2 <= j < x - 2 + n) ==> EmitRow(f, y, x, dy, n)[i][j] == f[i][j]
  {
    if n > 0 {
      EmitRowAt(f, y, x, dy, n - 1, i, j);
    }
  }

  /** Within the box around one Food cell each in-grid cell is written once,
    * with the emission for its offset; cells outside the box are untouched. */
  lemma {:induction false} EmitBoxAt(f: Field, y: int, x: int, m: nat, i: int, j: int)
    requires m <= 5 && InGrid(i, j)
    ensures y - 2 <= i < y - 2 + m && Abs(j - x) <= 2 ==>
              EmitBox(f, y, x, m)[i][j] == Min(f[i][j] + Emission(i - y, j - x), 15.0)
    ensures !(y - 2 <= i < y - 2 + m && Abs(j - x) <= 2) ==> EmitBox(f, y, x, m)[i][j] == f[i][j]
  {
    if m > 0 {
      EmitBoxAt(f, y, x, m - 1, i, j);
      EmitRowAt(EmitBox(f, y, x, m - 1), y, x, m - 3, 5, i, j);
    }
  }

  /** Part way through the sweep, a cell is untouched unless a Food cell
    * already visited is within Chebyshev distance 2, and then it is at most 15. */
  lemma {:induction false} EmitSweepAt(f: Field, g: Grid, y: int, x: int, i: int, j: int)
    requires SweepPoint(y, x) && InGrid(i, j)
    ensures !FedBefore(g, i, j, y, x) ==> EmitSweep(f, g, y, x)[i][j] == f[i][j]
    ensures FedBefore(g, i, j, y, x) ==> EmitSweep(f, g, y, x)[i][j] <= 15.0
    decreases y, x
  {
    if x == 0 {
      if y > 0 {
        EmitSweepAt(f, g, y - 1, GRID_WIDTH, i, j);
        assert FedBefore(g, i, j, y, 0) == FedBefore(g, i, j, y - 1, GRID_WIDTH);
      }
    } else {
      EmitSweepAt(f, g, y, x - 1, i, j);
      var h := EmitSweep(f, g, y, x - 1);
      if g[y][x - 1] == Food {
        EmitBoxAt(h, y, x - 1, 5, i, j);
        if Abs(y - i) <= 2 && Abs(x - 1 - j) <= 2 {
          assert InGrid(y, x - 1) && Before(y, x - 1, y, x);
        } else {
          assert FedBefore(g, i, j, y, x) == FedBefore(g, i, j, y, x - 1);
        }
      } else {
        assert FedBefore(g, i, j, y, x) == FedBefore(g, i, j, y, x - 1);
      }
    }
  }

  /** emit_chemical writes only cells within Chebyshev distance 2 of some
    * Food cell, and every cell it writes is at most 15 afterwards. */
  lemma EmitFrame(f: Field, g: Grid, i: int, j: int)
    requires InGrid(i, j)
    ensures !FoodNear(g, i, j, 2) ==> EmitSpec(f, g)[i][j] == f[i][j]
    ensures FoodNear(g, i, j, 2) ==> EmitSpec(f, g)[i][j] <= 15.0
  {
    EmitSweepAt(f, g, GRID_HEIGHT, 0, i, j);
    assert FedBefore(g, i, j, GRID_HEIGHT, 0) == FoodNear(g, i, j, 2);
  }

  /** With a single Food cell (a, b) in reach, a cell receives exactly that
    * source's emission for its offset, capped at 15. */
  lemma {:induction false} EmitSweepSingle(f: Field, g: Grid, y: int, x: int, i: int, j: int, a: int, b: int)
    requires SweepPoint(y, x) && InGrid(i, j) && InGrid(a, b)
    requires g[a][b] == Food && Abs(a - i) <= 2 && Abs(b - j) <= 2 && Before(a, b, y, x)
    requires forall c, d :: InGrid(c, d) && Before(c, d, y, x) && Abs(c - i) <= 2 && Abs(d - j) <= 2 && g[c][d] == Food ==>
               c == a && d == b
    ensures EmitSweep(f, g, y, x)[i][j] == Min(f[i][j] + Emission(i - a, j - b), 15.0)
    decreases y, x
  {
    if x == 0 {
      EmitSweepSingle(f, g, y - 1, GRID_WIDTH, i, j, a, b);
    } else {
      var h := EmitSweep(f, g, y, x - 1);
      if a == y && b == x - 1 {
        EmitSweepAt(f, g, y, x - 1, i, j);
        EmitBoxAt(h, y, x - 1, 5, i, j);
      } else {
        EmitSweepSingle(f, g, y, x - 1, i, j, a, b);
        if g[y][x - 1] == Food {
          EmitBoxAt(h, y, x - 1, 5, i, j);
        }
      }
    }
  }

  /** The contribution of a lone Food cell is EMISSION_INTENSITY * (3 - d) / 3
    * for the Manhattan offset d, capped at 15. */
  lemma EmitSingleSource(f: Field, g: Grid, i: int, j: int, a: int, b: int)
    requires InGrid(i, j) && InGrid(a, b)
    requires g[a][b] == Food && Abs(a - i) <= 2 && Abs(b - j) <= 2
    requires forall c, d :: InGrid(c, d) && Abs(c - i) <= 2 && Abs(d - j) <= 2 && g[c][d] == Food ==> c == a && d == b
    ensures EmitSpec(f, g)[i][j] == Min(f[i][j] + (EMISSION_INTENSITY * (3 - (Abs(i - a) + Abs(j - b))) as real / 3.0), 15.0)
  {
    EmitSweepSingle(f, g, GRID_HEIGHT, 0, i, j, a, b);
  }

  /** Nothing floors the field at 0: a corner of the box around a lone Food
    * cell loses chemical. */
  lemma EmitCornerLowers(f: Field, g: Grid, a: int, b: int)
    requires InGrid(a, b) && InGrid(a + 2, b + 2) && g[a][b] == Food
    requires forall c, d :: InGrid(c, d) && Abs(c - a - 2) <= 2 && Abs(d - b - 2) <= 2 && g[c][d] == Food ==> c == a && d == b
    ensures EmitSpec(f, g)[a + 2][b + 2] < f[a + 2][b + 2]
  {
    EmitSweepSingle(f, g, GRID_HEIGHT, 0, a + 2, b + 2, a, b);
  }
}
