// Growth and decay of the mold (grow_mold in main.py). The input grid is
// copied; a first pass over the interior reinforces or decays every Mold
// cell (and may kill it), a second pass lets every Mold cell of the input
// grid grow into at most one Empty axis neighbour. The chemical field is
// updated in place by both passes, in row-major order.
module Growth {
  import opened Constants
  import opened Fields

  /** Where grow_mold stands: the grid being built, the chemical field, the
    * index of the next random draw and the number of growths so far. */
  datatype GrowState = GrowState(grid: Grid, chem: Field, k: nat, growths: nat)

  /** The two passes of grow_mold over the interior. */
  datatype Pass = Upkeep | Growth

  /** A point of the row-major sweep over the interior: (y, x) is the next cell. */
  predicate InteriorPoint(y: int, x: int) {
    1 <= y <= GRID_HEIGHT - 1 && 1 <= x <= GRID_WIDTH - 1 && (y < GRID_HEIGHT - 1 || x == 1)
  }

  /** Interior cell (a, b) has been visited by the time the sweep reaches (y, x). */
  predicate Visited(a: int, b: int, y: int, x: int) {
    Interior(a, b) && Before(a, b, y, x)
  }

  // ---------------------------------------------------------------------
  // Pass 1: upkeep of the existing Mold cells

  /** Chemical of a Mold cell after upkeep: reinforced near food, decayed otherwise. */
  function Upkept(nearFood: bool, c: real): (r: real)
    ensures nearFood ==> r <= 25.0 && (c <= 20.0 ==> r == c + 5.0) && (c > 20.0 ==> r == 25.0)
    ensures !nearFood ==> r == c * 0.98
  {
    if nearFood then Min(c + 5.0, 25.0) else c * 0.98
  }

  /** Upkeep of the interior cell (y, x). */
  ghost function UpkeepCell(g: Grid, draws: nat -> real, s: GrowState, y: int, x: int): GrowState
    requires Interior(y, x)
  {
    if g[y][x] != Mold then s
    else
      var near := FoodNear(g, y, x, 8);
      var c := Upkept(near, s.chem[y][x]);
      var chem := Set(s.chem, y, x, c);
      if !near && c < 0.5 then
        s.(grid := if draws(s.k) < 0.01 then Set(s.grid, y, x, Empty) else s.grid, chem := chem, k := s.k + 1)
      else
        s.(chem := chem)
  }

  /** Upkeep of one cell leaves a non-Mold cell alone, never counts a growth,
    * and consumes a draw only when no Food is near and the decayed value is
    * below 0.5. */
  lemma UpkeepCellSteps(g: Grid, draws: nat -> real, s: GrowState, y: int, x: int)
    requires Interior(y, x)
    ensures var r := UpkeepCell(g, draws, s, y, x);
      && (g[y][x] != Mold ==> r == s)
      && r.growths == s.growths
      && (r.k == s.k || (r.k == s.k + 1 && !FoodNear(g, y, x, 8) && s.chem[y][x] * 0.98 < 0.5))
  {
  }

  // ---------------------------------------------------------------------
  // Pass 2: directed growth

  /** Python's min(best, d) with float('inf') standing for None. */
  function MinDist(best: Option<nat>, d: nat): (r: nat)
    ensures r <= d && (best.Some? ==> r <= best.value)
    ensures r == d || (best.Some? && r == best.value)
  {
    match best
    case None => d
    case Some(b) => if d < b then d else b
  }

  /** Manhattan distance from (ny, nx) to the nearest Food cell before (y, x)
    * in row-major order, None when there is none. */
  function NearestFoodBefore(g: Grid, ny: int, nx: int, y: int, x: int): Option<nat>
    requires SweepPoint(y, x)
    decreases y, x
  {
    if x == 0 then
      (if y == 0 then None else NearestFoodBefore(g, ny, nx, y - 1, GRID_WIDTH))
    else
      var d := NearestFoodBefore(g, ny, nx, y, x - 1);
      if g[y][x - 1] == Food then Some(MinDist(d, Abs(ny - y) + Abs(nx - (x - 1)))) else d
  }

  /** The scan finds nothing exactly when no Food cell precedes (y, x), and
    * otherwise the least distance to such a Food cell. */
  lemma {:induction false} NearestFoodBeforeIsLeast(g: Grid, ny: int, nx: int, y: int, x: int)
    requires SweepPoint(y, x)
    ensures var d := NearestFoodBefore(g, ny, nx, y, x);
      && (d.None? <==> forall a, b :: InGrid(a, b) && Before(a, b, y, x) ==> g[a][b] != Food)
      && (d.Some? ==> forall a, b :: InGrid(a, b) && Before(a, b, y, x) && g[a][b] == Food ==>
                        d.value <= Abs(ny - a) + Abs(nx - b))
      && (d.Some? ==> exists a, b :: InGrid(a, b) && Before(a, b, y, x) && g[a][b] == Food &&
                        d.value == Abs(ny - a) + Abs(nx - b))
    decreases y, x
  {
    if x == 0 {
      if y > 0 {
        NearestFoodBeforeIsLeast(g, ny, nx, y - 1, GRID_WIDTH);
      }
    } else {
      NearestFoodBeforeIsLeast(g, ny, nx, y, x - 1);
    }
  }

  /** Manhattan distance from (ny, nx) to the nearest Food cell of the grid. */
  function NearestFood(g: Grid, ny: int, nx: int): Option<nat> {
    NearestFoodBefore(g, ny, nx, GRID_HEIGHT, 0)
  }

  /** NearestFood is None exactly when the grid holds no Food, and otherwise
    * the least Manhattan distance from (ny, nx) to a Food cell. */
  lemma NearestFoodIsLeast(g: Grid, ny: int, nx: int)
    ensures var d := NearestFood(g, ny, nx);
      && (d.None? <==> forall a, b :: InGrid(a, b) ==> g[a][b] != Food)
      && (d.Some? ==> forall a, b :: InGrid(a, b) && g[a][b] == Food ==> d.value <= Abs(ny - a) + Abs(nx - b))
      && (d.Some? ==> exists a, b :: InGrid(a, b) && g[a][b] == Food && d.value == Abs(ny - a) + Abs(nx - b))
  {
    NearestFoodBeforeIsLeast(g, ny, nx, GRID_HEIGHT, 0);
  }

  /** 2 / (d + 1) for a nearest Food at distance d < 40, and 0 otherwise
    * (also when there is no Food at all). */
  function FoodBonus(d: Option<nat>): (b: real)
    ensures 0.0 <= b <= 2.0
    ensures b > 0.0 <==> d.Some? && d.value < 40
  {
    match d
    case None => 0.0
    case Some(v) => if v < 40 then 2.0 / (v + 1) as real else 0.0
  }

  /** Score of the candidate cell (ny, nx): its chemical plus the food bonus. */
  function Score(g: Grid, chem: Field, ny: int, nx: int): (r: real)
    requires InGrid(ny, nx)
    ensures chem[ny][nx] <= r <= chem[ny][nx] + 2.0
    ensures r > chem[ny][nx] <==> NearestFood(g, ny, nx).Some? && NearestFood(g, ny, nx).value < 40
  {
    chem[ny][nx] + FoodBonus(NearestFood(g, ny, nx))
  }

  /** The axis neighbours of (y, x) in the order grow_mold tries them. */
  function Neighbors(y: int, x: int): seq<(int, int)> {
    [(y - 1, x), (y + 1, x), (y, x - 1), (y, x + 1)]
  }

  /** The candidates are exactly the cells at Manhattan distance 1. */
  lemma NeighborsAreAxisNeighbours(y: int, x: int)
    ensures |Neighbors(y, x)| == 4
    ensures forall a, b :: (a, b) in Neighbors(y, x) <==> Abs(a - y) + Abs(b - x) == 1
  {
  }

  /** The best candidate so far, its score and the index of the next draw. */
  datatype Choice = Choice(best: Option<(int, int)>, bestScore: real, k: nat)

  /** The choice after trying the first n neighbours of the Mold cell (y, x),
    * starting with draw k: an Empty neighbour (of the input grid) replaces the
    * best one when its score beats the best score and 1.5 and the draw it
    * then consumes is below 0.4. */
  function ChooseBest(g: Grid, chem: Field, draws: nat -> real, y: int, x: int, n: nat, k: nat): (c: Choice)
    requires Interior(y, x) && n <= 4
    ensures k <= c.k <= k + n
    ensures c.best.Some? ==> Abs(c.best.value.0 - y) + Abs(c.best.value.1 - x) == 1
  {
    if n == 0 then Choice(None, 0.0, k)
    else
      var c := ChooseBest(g, chem, draws, y, x, n - 1, k);
      var ny, nx := Neighbors(y, x)[n - 1].0, Neighbors(y, x)[n - 1].1;
      if g[ny][nx] != Empty then c
      else
        var total := Score(g, chem, ny, nx);
        if total > c.bestScore && total > 1.5 then
          if draws(c.k) < 0.4 then Choice(Some((ny, nx)), total, c.k + 1) else c.(k := c.k + 1)
        else c
  }

  /** A chosen candidate is one of the first n axis neighbours, is Empty in the
    * input grid, and its score is the best score, above 1.5; with no choice
    * the best score is still 0. */
  lemma {:induction false} ChooseBestValid(g: Grid, chem: Field, draws: nat -> real, y: int, x: int, n: nat, k: nat)
    requires Interior(y, x) && n <= 4
    ensures var c := ChooseBest(g, chem, draws, y, x, n, k);
      && (c.best.None? ==> c.bestScore == 0.0)
      && (c.best.Some? ==> exists m :: 0 <= m < n && c.best.value == Neighbors(y, x)[m])
      && (c.best.Some? ==> g[c.best.value.0][c.best.value.1] == Empty &&
                           c.bestScore == Score(g, chem, c.best.value.0, c.best.value.1) && c.bestScore > 1.5)
  {
    if n > 0 {
      ChooseBestValid(g, chem, draws, y, x, n - 1, k);
    }
  }

  /** Growth from the interior cell (y, x): a Mold cell of the input grid turns
    * its chosen neighbour into Mold and seeds its chemical (+5, capped at 15). */
  function GrowCell(g: Grid, draws: nat -> real, s: GrowState, y: int, x: int): GrowState
    requires Interior(y, x)
  {
    if g[y][x] != Mold then s
    else
      var c := ChooseBest(g, s.chem, draws, y, x, 4, s.k);
      match c.best
      case None => s.(k := c.k)
      case Some(t) =>
        GrowState(Set(s.grid, t.0, t.1, Mold), Set(s.chem, t.0, t.1, Min(s.chem[t.0][t.1] + 5.0, 15.0)),
                  c.k, s.growths + 1)
  }

  /** Growth from one cell leaves the state alone unless the cell is Mold in
    * the input grid, consumes at most four draws and adds at most one growth. */
  lemma GrowCellSteps(g: Grid, draws: nat -> real, s: GrowState, y: int, x: int)
    requires Interior(y, x)
    ensures var r := GrowCell(g, draws, s, y, x);
      && (g[y][x] != Mold ==> r == s)
      && s.k <= r.k <= s.k + 4
      && (r.growths == s.growths || (r.growths == s.growths + 1 && g[y][x] == Mold))
  {
  }

  // ---------------------------------------------------------------------
  // The whole of grow_mold

  /** The state after the given pass has visited every interior cell before (y, x). */
  ghost function Sweep(pass: Pass, g: Grid, draws: nat -> real, s: GrowState, y: int, x: int): (r: GrowState)
    requires InteriorPoint(y, x)
    ensures s.k <= r.k && s.growths <= r.growths
    ensures pass == Upkeep ==> r.growths == s.growths
    decreases y, x
  {
    if x == 1 then
      (if y == 1 then s else Sweep(pass, g, draws, s, y - 1, GRID_WIDTH - 1))
    else
      var t := Sweep(pass, g, draws, s, y, x - 1);
      match pass
      case Upkeep => UpkeepCellSteps(g, draws, t, y, x - 1); UpkeepCell(g, draws, t, y, x - 1)
      case Growth => GrowCellSteps(g, draws, t, y, x - 1); GrowCell(g, draws, t, y, x - 1)
  }

  /** grow_mold on grid g and field f, random draws from index k onwards:
    * the new grid, the new field, the next draw index and the growth count. */
  ghost function GrowSpec(g: Grid, f: Field, draws: nat -> real, k: nat): (r: GrowState)
    ensures k <= r.k
  {
    var s1 := Sweep(Upkeep, g, draws, GrowState(g, f, k, 0), GRID_HEIGHT - 1, 1);
    Sweep(Growth, g, draws, s1, GRID_HEIGHT - 1, 1)
  }
}
