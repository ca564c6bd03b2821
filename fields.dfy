// Value-level view of the two H x W matrices of the simulation: the grid of
// cell kinds and the chemical field, with snapshots of the arrays that hold them.
module Fields {
  import opened Constants

  /** Row-major matrix with the dimensions of the simulation. */
  predicate Shaped<T>(m: seq<seq<T>>) {
    |m| == GRID_HEIGHT && forall i :: 0 <= i < |m| ==> |m[i]| == GRID_WIDTH
  }

  type Grid = m: seq<seq<CellKind>> | Shaped(m) witness seq(GRID_HEIGHT, _ => seq(GRID_WIDTH, _ => Empty))
  type Field = m: seq<seq<real>> | Shaped(m) witness seq(GRID_HEIGHT, _ => seq(GRID_WIDTH, _ => 0.0))

  /** (y, x) addresses a cell of the grid (row y, column x). */
  predicate InGrid(y: int, x: int) {
    0 <= y < GRID_HEIGHT && 0 <= x < GRID_WIDTH
  }

  /** (y, x) is off the one-cell border, so its four axis neighbours exist. */
  predicate Interior(y: int, x: int) {
    1 <= y < GRID_HEIGHT - 1 && 1 <= x < GRID_WIDTH - 1
  }

  function Abs(n: int): nat {
    if n < 0 then -n else n
  }

  datatype Option<T> = None | Some(value: T)

  /** Cell (a, b) comes before (y, x) in row-major order. */
  predicate Before(a: int, b: int, y: int, x: int) {
    a < y || (a == y && b < x)
  }

  /** A point of a row-major sweep over the whole grid: (y, x) is the next cell. */
  predicate SweepPoint(y: int, x: int) {
    0 <= y <= GRID_HEIGHT && 0 <= x <= GRID_WIDTH && (y < GRID_HEIGHT || x == 0)
  }

  /** Some Food cell lies within Chebyshev distance `radius` of (i, j). */
  ghost predicate FoodNear(g: Grid, i: int, j: int, radius: nat) {
    exists a, b :: InGrid(a, b) && Abs(a - i) <= radius && Abs(b - j) <= radius && g[a][b] == Food
  }

  /** Python's min for two floats: the first unless the second is smaller. */
  function Min(a: real, b: real): (r: real)
    ensures r <= a && r <= b && (r == a || r == b)
  {
    if b < a then b else a
  }

  /** The matrix with the single entry (y, x) replaced by v. */
  function Set<T>(m: seq<seq<T>>, y: int, x: int, v: T): (r: seq<seq<T>>)
    requires Shaped(m) && InGrid(y, x)
    ensures Shaped(r)
    ensures r[y][x] == v
    ensures forall i, j :: InGrid(i, j) && (i != y || j != x) ==> r[i][j] == m[i][j]
  {
    m[y := m[y][x := v]]
  }

  /** The contents of a two-dimensional array, row by row. */
  ghost function Rows<T>(a: array2<T>): (m: seq<seq<T>>)
    reads a
    ensures |m| == a.Length0 && forall i :: 0 <= i < a.Length0 ==> |m[i]| == a.Length1
    ensures forall i, j :: 0 <= i < a.Length0 && 0 <= j < a.Length1 ==> m[i][j] == a[i, j]
  {
    seq(a.Length0, i requires 0 <= i < a.Length0 reads a =>
      seq(a.Length1, j requires 0 <= j < a.Length1 reads a => a[i, j]))
  }

  /** Array a holds exactly the matrix m. */
  ghost predicate Holds<T>(a: array2<T>, m: seq<seq<T>>)
    reads a
  {
    a.Length0 == GRID_HEIGHT && a.Length1 == GRID_WIDTH && Shaped(m) &&
    forall i, j :: 0 <= i < GRID_HEIGHT && 0 <= j < GRID_WIDTH ==> a[i, j] == m[i][j]
  }

  lemma HoldsRows<T>(a: array2<T>, m: seq<seq<T>>)
    requires Holds(a, m)
    ensures Rows(a) == m
  {
    var r := Rows(a);
    forall i | 0 <= i < GRID_HEIGHT
      ensures r[i] == m[i]
    {
      assert forall j :: 0 <= j < GRID_WIDTH ==> r[i][j] == m[i][j];
    }
  }
}
