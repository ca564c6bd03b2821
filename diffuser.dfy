// Diffusion and evaporation of the chemical field (diffuse_chemical in
// main.py): a four-neighbour Laplacian stencil over the interior cells,
// computed from the old field into a fresh copy.
module Diffuser {
  import opened Constants
  import opened Fields

  /** Sum of the four axis neighbours minus four times the centre. */
  function Laplacian(f: Field, y: int, x: int): (r: real)
    requires Interior(y, x)
    ensures f[y - 1][x] == f[y + 1][x] == f[y][x - 1] == f[y][x + 1] == f[y][x] ==> r == 0.0
    ensures f[y - 1][x] >= f[y][x] && f[y + 1][x] >= f[y][x] && f[y][x - 1] >= f[y][x] && f[y][x + 1] >= f[y][x] ==> r >= 0.0
  {
    f[y - 1][x] + f[y + 1][x] + f[y][x - 1] + f[y][x + 1] - 4.0 * f[y][x]
  }

  /** np.clip for a scalar. */
  function Clip(v: real, lo: real, hi: real): (r: real)
    requires lo <= hi
    ensures lo <= r <= hi
    ensures lo <= v <= hi ==> r == v
    ensures v < lo ==> r == lo
    ensures hi < v ==> r == hi
  {
    if v < lo then lo else if v > hi then hi else v
  }

  /** New value of an Empty or Mold cell from its value c and its Laplacian:
    * evaporation term plus diffusion term, clipped to [0, 15]. */
  function Relaxed(c: real, laplacian: real, diffusion: real, evaporation: real): (r: real)
    ensures 0.0 <= r <= 15.0
    ensures var v := c * (1.0 - evaporation) + diffusion * laplacian; 0.0 <= v <= 15.0 ==> r == v
  {
    Clip(c * (1.0 - evaporation) + diffusion * laplacian, 0.0, 15.0)
  }

  /** The value diffuse_chemical gives cell (y, x). */
  function DiffuseAt(f: Field, g: Grid, y: int, x: int): (r: real)
    requires InGrid(y, x)
    ensures !Interior(y, x) ==> r == f[y][x]
    ensures Interior(y, x) && g[y][x] == Obstacle ==> r == 0.0
    ensures Interior(y, x) && g[y][x] == Food ==> r == f[y][x]
    ensures Interior(y, x) && (g[y][x] == Empty || g[y][x] == Mold) ==> 0.0 <= r <= 15.0
  {
    if !Interior(y, x) then f[y][x]
    else
      match g[y][x]
      case Obstacle => 0.0
      case Food => f[y][x]
      case Mold => Relaxed(f[y][x], Laplacian(f, y, x), DIFFUSION_RATE * 0.3, EVAPORATION_RATE * 0.2)
      case Empty => Relaxed(f[y][x], Laplacian(f, y, x), DIFFUSION_RATE, EVAPORATION_RATE)
  }

  /** The field diffuse_chemical returns. */
  function DiffuseSpec(f: Field, g: Grid): Field
  {
    seq(GRID_HEIGHT, y requires 0 <= y < GRID_HEIGHT =>
      seq(GRID_WIDTH, x requires 0 <= x < GRID_WIDTH => DiffuseAt(f, g, y, x)))
  }

  /** diffuse_chemical: a fresh field, the input left as it was. */
  method DiffuseChemical(chemical: array2<real>, grid: array2<CellKind>) returns (newChem: array2<real>)
    requires chemical.Length0 == GRID_HEIGHT && chemical.Length1 == GRID_WIDTH
    requires grid.Length0 == GRID_HEIGHT && grid.Length1 == GRID_WIDTH
    ensures fresh(newChem) && newChem.Length0 == GRID_HEIGHT && newChem.Length1 == GRID_WIDTH
    ensures Rows(newChem) == DiffuseSpec(Rows(chemical), Rows(grid))
  {
    ghost var f: Field := Rows(chemical);
    ghost var g: Grid := Rows(grid);
    newChem := new real[GRID_HEIGHT, GRID_WIDTH]((i, j) requires 0 <= i < GRID_HEIGHT && 0 <= j < GRID_WIDTH
                                                   reads chemical => chemical[i, j]);
    for y := 1 to GRID_HEIGHT - 1
      invariant forall i, j :: InGrid(i, j) ==>
                  newChem[i, j] == if Interior(i, j) && i < y then DiffuseAt(f, g, i, j) else f[i][j]
    {
      for x := 1 to GRID_WIDTH - 1
        invariant forall i, j :: InGrid(i, j) ==>
                    newChem[i, j] == if Interior(i, j) && (i < y || (i == y && j < x)) then DiffuseAt(f, g, i, j) else f[i][j]
      {
        DiffuseCell(chemical, grid, newChem, y, x);
      }
    }
    HoldsRows(newChem, DiffuseSpec(f, g));
  }

  /** One pass of the inner loop of diffuse_chemical: the new value of the
    * interior cell (y, x), written into the copy. */
  method DiffuseCell(chemical: array2<real>, grid: array2<CellKind>, newChem: array2<real>, y: int, x: int)
    requires chemical.Length0 == GRID_HEIGHT && chemical.Length1 == GRID_WIDTH
    requires grid.Length0 == GRID_HEIGHT && grid.Length1 == GRID_WIDTH
    requires newChem.Length0 == GRID_HEIGHT && newChem.Length1 == GRID_WIDTH
    requires newChem != chemical && Interior(y, x) && newChem[y, x] == chemical[y, x]
    modifies newChem
    ensures newChem[y, x] == DiffuseAt(Rows(chemical), Rows(grid), y, x)
    ensures forall i, j :: InGrid(i, j) && (i != y || j != x) ==> newChem[i, j] == old(newChem[i, j])
  {
    ghost var f: Field := Rows(chemical);
    ghost var g: Grid := Rows(grid);
    assert g[y][x] == grid[y, x];
    if grid[y, x] == Obstacle {
      newChem[y, x] := 0.0;
      return;
    }
    var currentVal := chemical[y, x];
    var diffusionFactor, evaporationFactor;
    if grid[y, x] == Mold {
      diffusionFactor := DIFFUSION_RATE * 0.3;
      evaporationFactor := EVAPORATION_RATE * 0.2;
    } else if grid[y, x] == Food {
      return;
    } else {
      diffusionFactor := DIFFUSION_RATE;
      evaporationFactor := EVAPORATION_RATE;
    }
    var laplacian := chemical[y - 1, x] + chemical[y + 1, x] + chemical[y, x - 1] + chemical[y, x + 1] - 4.0 * currentVal;
    var diffusionTerm := diffusionFactor * laplacian;
    var evaporationTerm := currentVal * (1.0 - evaporationFactor);
    var newValue := evaporationTerm + diffusionTerm;
    assert laplacian == Laplacian(f, y, x);
    newChem[y, x] := Clip(newValue, 0.0, 15.0);
  }

  /** Every field whose values lie in [0, 15] is mapped to one whose values lie in [0, 15]. */
  lemma DiffuseKeepsRange(f: Field, g: Grid)
    requires forall i, j :: InGrid(i, j) ==> 0.0 <= f[i][j] <= 15.0
    ensures forall i, j :: InGrid(i, j) ==> 0.0 <= DiffuseSpec(f, g)[i][j] <= 15.0
  {
    forall i, j | InGrid(i, j)
      ensures 0.0 <= DiffuseSpec(f, g)[i][j] <= 15.0
    {
      assert DiffuseSpec(f, g)[i][j] == DiffuseAt(f, g, i, j);
    }
  }

  /** A cell's new value depends only on its kind and the five-point stencil of the old field. */
  lemma DiffuseLocal(f1: Field, f2: Field, g1: Grid, g2: Grid, y: int, x: int)
    requires Interior(y, x) && g1[y][x] == g2[y][x]
    requires f1[y][x] == f2[y][x] && f1[y - 1][x] == f2[y - 1][x] && f1[y + 1][x] == f2[y + 1][x]
    requires f1[y][x - 1] == f2[y][x - 1] && f1[y][x + 1] == f2[y][x + 1]
    ensures DiffuseSpec(f1, g1)[y][x] == DiffuseSpec(f2, g2)[y][x]
  {
  }

  /** The all-zero field is a fixed point of diffusion, whatever the grid. */
  lemma DiffuseZero(g: Grid)
    ensures var zero: Field := seq(GRID_HEIGHT, _ => seq(GRID_WIDTH, _ => 0.0));
            DiffuseSpec(zero, g) == zero
  {
    var zero: Field := seq(GRID_HEIGHT, _ => seq(GRID_WIDTH, _ => 0.0));
    var r := DiffuseSpec(zero, g);
    forall i | 0 <= i < GRID_HEIGHT
      ensures r[i] == zero[i]
    {
      forall j | 0 <= j < GRID_WIDTH
        ensures r[i][j] == zero[i][j]
      {
        if Interior(i, j) {
          assert Laplacian(zero, i, j) == 0.0;
        }
      }
    }
  }

  /** Diffusion can raise a cell above the maximum of the old field: with
    * DIFFUSION_RATE = 0.3 the centre weight 1 - e - 4f of the stencil is
    * negative, so an empty cell at 0 surrounded by 10 becomes 12. */
  lemma DiffusionCanExceedMaximum(g: Grid)
    requires g[1][1] == Empty
    ensures var f: Field := seq(GRID_HEIGHT, i => seq(GRID_WIDTH, j => if i == 1 && j == 1 then 0.0 else 10.0));
            (forall i, j :: InGrid(i, j) ==> f[i][j] <= 10.0) && DiffuseSpec(f, g)[1][1] == 12.0
  {
    var f: Field := seq(GRID_HEIGHT, i => seq(GRID_WIDTH, j => if i == 1 && j == 1 then 0.0 else 10.0));
    assert Laplacian(f, 1, 1) == 40.0;
  }
}
