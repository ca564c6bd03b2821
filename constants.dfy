// Parameters of the automaton: grid size, cell kinds and chemical rates
// (constants.py).
module Constants {
  /** Number of columns and rows of the grid. */
  const GRID_WIDTH: nat := 100
  const GRID_HEIGHT: nat := 80

  /** The four cell kinds; the source stores them as the codes 0..3 in a byte grid. */
  datatype CellKind = Empty | Mold | Food | Obstacle

  const DIFFUSION_RATE: real := 0.3
  const EVAPORATION_RATE: real := 0.2
  const EMISSION_INTENSITY: real := 5.0
}
