# Slime-mold cellular automaton: the simulation engine

This project models the per-tick engine of a slime-mold automaton. The world is an
80 x 100 grid of cell kinds (Empty, Mold, Food, Obstacle). Beside it lies a field of
chemical concentrations of the same size. Each tick runs three stages in a fixed order:

1. **emit_chemical** adds chemical, in place, around every Food cell. The amount falls
   with Manhattan distance over the 5 x 5 box around the cell, and each write is capped
   at 15.
2. **diffuse_chemical** builds a fresh field from the old one. It applies a four-neighbour
   Laplacian stencil to the interior cells. Obstacles become 0 and Food is frozen. Empty
   and Mold cells each have their own coefficients, and the result is clipped to [0, 15].
3. **grow_mold** builds a new grid in two passes over the interior, both in row-major
   order. The upkeep pass reinforces every Mold cell with Food in its 17 x 17 window, or
   else decays it and may kill it. The directed-growth pass lets every Mold cell of the
   input grid grow into at most one Empty axis neighbour, chosen by score, threshold and
   a random gate. Both passes also update the chemical field in place.

Files and modules:

- `constants.dfy` (`Constants`): the grid size, the cell kinds and the rates.
- `fields.dfy` (`Fields`): grids and fields as values (`seq<seq<_>>` of the grid's shape),
  plus `Rows`, which snapshots an `array2`.
- `emitter.dfy` (`Emitter`), `diffuser.dfy` (`Diffuser`): the first two stages.
- `growth.dfy` (`Growth`): the specification of grow_mold as a row-major sweep over a
  state made of the grid being built, the field, the index of the next random draw and
  the growth count.
- `growth_impl.dfy` (`GrowthLoops`): the loops of grow_mold on arrays, proved equal to
  that specification.
- `growth_lemmas.dfy` (`GrowthProperties`): what grow_mold guarantees.
- `simulation.dfy` (`Simulation`): the tick, n ticks in a row, and the invariants that
  hold across ticks.

Each imperative stage is a method on `array2`, proved against a specification function
on values. Emission and both passes of growth are in-place, order-dependent updates. Their
specifications are therefore sequential sweeps in the source's own order: later writes see
earlier ones, and caps and draws are applied in that order. Chemical values are `real`.
The random generator is a stream `draws: nat -> real` read through an index. A draw is
consumed only where the source's short-circuit evaluation reaches `np.random.random()`.
All guarantees hold for every stream.

## Model

| member | source | states |
|---|---|---|
| `Emitter.Emission` | main.py:151-152 | the weight for offset (dy, dx) is positive and at most EMISSION_INTENSITY within Manhattan distance 2, 0 at distance 3 and negative at distance 4 (the box corners) |
| `Emitter.EmitAt` | main.py:148-153 | one write of the box: skipped when the target is off the grid, otherwise the target ends at most 15 and at most its old value plus the offset's weight |
| `Emitter.EmitSweep` | main.py:143-153 | reference definition: the field after the Food cells before (y, x), in row-major order, have each applied their box of writes to the field left by the earlier ones |
| `Emitter.EmitSpec` | main.py:141-153 | reference definition: the sweep over the whole grid, the field emit_chemical leaves |
| `Emitter.EmitChemical` | main.py:141-153 | the field after the call is the row-major emission sweep applied to the old field; the grid is not modified |
| `Emitter.EmitAround` | main.py:147-153 | the two inner loops apply exactly the 25 offset writes of one Food cell's box |
| `Emitter.EmitRowAt` | main.py:148-153 | within one row of the box, each in-grid cell is written once, with min(c + emission, 15), and other cells are untouched |
| `Emitter.EmitBoxAt` | main.py:147-153 | around one Food cell, each in-grid cell of the 5x5 box gets min(c + emission for its offset, 15); cells outside the box, and out-of-grid offsets, are skipped |
| `Emitter.EmitSweepAt` | main.py:143-153 | part way through the sweep, a cell is unchanged unless an already-visited Food cell is within Chebyshev distance 2, and then it is at most 15 |
| `Emitter.EmitFrame` | main.py:143-153 | emit_chemical writes only cells within Chebyshev distance 2 of some Food cell, and every such cell is at most 15 afterwards |
| `Emitter.EmitSweepSingle` | main.py:143-153 | part way through the sweep, a cell reached by exactly one visited Food cell holds that source's capped contribution |
| `Emitter.EmitSingleSource` | main.py:150-153 | a cell reached by a single Food cell receives EMISSION_INTENSITY * (3 - d) / 3 for its Manhattan offset d, capped at 15 |
| `Emitter.EmitCornerLowers` | main.py:151-153 | nothing floors the result at 0: a (+2, +2) corner of a lone Food cell's box ends strictly below its old value |
| `Diffuser.Laplacian` | main.py:183-186 | the five-point stencil is 0 on a uniform neighbourhood and non-negative when no neighbour is below the centre |
| `Diffuser.Clip` | main.py:197 | np.clip: the result lies in [lo, hi] and equals the input when the input already does |
| `Diffuser.Relaxed` | main.py:192-197 | c * (1 - e) + f * laplacian, clipped: always in [0, 15], and unclipped when that value is already in range |
| `Diffuser.DiffuseAt` | main.py:158-197 | border cells keep their value, interior Obstacles become 0, interior Food is unchanged, interior Empty and Mold cells end in [0, 15] |
| `Diffuser.DiffuseSpec` | main.py:155-199 | reference definition: the field whose every cell is `DiffuseAt` of the old field |
| `Diffuser.DiffuseChemical` | main.py:155-199 | returns a fresh array equal to the cell-wise diffusion of the old field; the input field and the grid are not modified |
| `Diffuser.DiffuseCell` | main.py:160-197 | one interior cell of the copy gets its diffused value; the other cells are untouched |
| `Diffuser.DiffuseKeepsRange` | main.py:155-199 | a field within [0, 15] stays within [0, 15] |
| `Diffuser.DiffuseLocal` | main.py:182-186 | a cell's new value depends only on its kind and the old five-point stencil |
| `Diffuser.DiffuseZero` | main.py:155-199 | the all-zero field is a fixed point of diffusion |
| `Diffuser.DiffusionCanExceedMaximum` | main.py:178-197 | an Empty cell at 0 surrounded by 10 becomes 12, above the old maximum |
| `Growth.Upkept` | main.py:86-91 | a Mold cell's chemical becomes min(c + 5, 25) near food (c + 5 when c <= 20, and 25 above), and 0.98 c otherwise |
| `Growth.UpkeepCell` | main.py:73-94 | reference definition: an interior Mold cell of the input grid gets the upkept chemical; without Food near and with a decayed value below 0.5 it consumes a draw and dies when the draw is below 0.01 |
| `Growth.UpkeepCellSteps` | main.py:73-94 | upkeep of one cell leaves non-Mold cells alone, never counts a growth, and consumes a draw only when no Food is near and the decayed value is below 0.5 |
| `Growth.MinDist` | main.py:117 | Python's min of the best distance so far (None standing for infinity) and a new distance |
| `Growth.NearestFoodBeforeIsLeast` | main.py:112-117 | part way through the scan, the result is None exactly when no Food cell has been visited, and otherwise the least distance to a visited Food cell |
| `Growth.NearestFoodIsLeast` | main.py:112-117 | the nearest-food distance is None exactly when the grid has no Food, and otherwise the least Manhattan distance to a Food cell |
| `Growth.FoodBonus` | main.py:111-120 | the food bonus lies in [0, 2] and is positive exactly when a Food cell lies at distance < 40 |
| `Growth.Score` | main.py:108-122 | a candidate's score is its chemical plus at most 2, and exceeds its chemical exactly when the nearest Food lies at distance < 40 |
| `Growth.NeighborsAreAxisNeighbours` | main.py:100 | the four candidates are exactly the cells at Manhattan distance 1 |
| `Growth.ChooseBest` | main.py:102-129 | a chosen candidate is at Manhattan distance 1 from the Mold cell, and at most one draw is consumed per candidate |
| `Growth.ChooseBestValid` | main.py:102-129 | a chosen candidate is one of the axis neighbours tried so far, is Empty in the input grid, and its score is the best score and is > 1.5; with no choice the best score stays 0 |
| `Growth.GrowCell` | main.py:99-135 | reference definition: a Mold cell of the input grid turns its chosen neighbour into Mold, sets that neighbour's chemical to min(c + 5, 15) and counts one growth |
| `Growth.GrowCellSteps` | main.py:99-135 | growth from one cell leaves the state alone unless the cell is Mold in the input grid, consumes at most four draws and adds at most one growth |
| `Growth.Sweep` | main.py:71-135 | a pass over the interior in row-major order never moves the draw index or the growth count back, and the upkeep pass counts no growth |
| `Growth.GrowSpec` | main.py:65-139 | grow_mold as the upkeep pass followed by the growth pass, both over the input grid's kinds; the draw index never goes back |
| `GrowthLoops.NearFood` | main.py:75-84 | the search with early exits returns true exactly when a Food cell lies in the 17x17 window clipped to the grid |
| `GrowthLoops.NearestFoodDistance` | main.py:112-117 | the full-grid scan returns the nearest-food distance of the specification |
| `GrowthLoops.GrowMold` | main.py:65-139 | returns a fresh grid, the next draw index and the growth count, and leaves the field equal to the two-pass specification; the input grid is not modified |
| `GrowthLoops.UpkeepMold` | main.py:74-94 | one Mold cell's upkeep: reinforce, or decay and draw only when the decayed value is below 0.5 |
| `GrowthLoops.ChooseNeighbor` | main.py:100-129 | the neighbour loop computes the specified choice, best score and draw index from the input grid and the current field |
| `GrowthLoops.GrowFrom` | main.py:131-135 | growth into the chosen cell: it becomes Mold, the count goes up by one, and its chemical becomes min(c + 5, 15) |
| `GrowthProperties.UpkeepSweepAt` | main.py:71-94 | the upkeep pass changes only interior Mold cells of the input grid, each once, to the upkept value; a cell dies only with no Food in its window and a decayed value < 0.5; at most one draw per Mold cell |
| `GrowthProperties.GrowCellAt` | main.py:100-135 | growth from one cell changes another cell only if that cell is Empty in the input grid and adjacent to a Mold source; it becomes Mold with chemical at most 15, non-negative if it was |
| `GrowthProperties.GrowSweepAt` | main.py:97-135 | the growth pass changes a cell only if it is Empty in the input grid and next to an already-visited interior Mold cell: it becomes Mold, and its chemical is at most 15 and stays non-negative; a Mold cell stays Mold |
| `GrowthProperties.GrowthCountBound` | main.py:97-133 | each Mold source adds at most one growth and consumes at most four draws |
| `GrowthProperties.GrowMoldKinds` | main.py:65-139 | Food and Obstacle never change; every change is an interior Mold-to-Empty death (no Food in the window, decayed chemical < 0.5) or an Empty-to-Mold birth next to an interior Mold cell of the input grid |
| `GrowthProperties.GrowMoldChemical` | main.py:65-139 | interior Mold cells end with the upkeep value; Food, Obstacle and border Mold keep theirs; an Empty cell whose chemical changes has become Mold, next to an interior Mold cell, with chemical at most 15, and stays non-negative |
| `GrowthProperties.GrowMoldCounts` | main.py:65-139 | draws are consumed from k onwards, at most five per interior Mold cell, and the growth count is at most the number of interior Mold cells |
| `Simulation.TickSpec` | main.py:215-220 | the tick as the composition of emission, diffusion and growth; the draw index never goes back |
| `Simulation.Run` | main.py:209-220 | n ticks in a row, each on the grid, field and draw index the previous one left; the draw index never goes back |
| `Simulation.Tick` | main.py:215-220 | emit, then diffuse, then grow, in that order: the result is the composition of the three specifications, and the caller's field array is left holding the emitted field |
| `Simulation.TickKinds` | main.py:215-220 | a tick keeps Food and Obstacle cells and changes other cells only between Mold and Empty |
| `Simulation.RunKeepsFoodAndObstacles` | main.py:209-220 | Food and Obstacle cells keep their kind for any number of ticks |
| `Simulation.TickFixedCellsChemical` | main.py:215-220 | after a tick an interior Obstacle holds 0, and a Food cell holds what emission left it, at most 15 |
| `Simulation.TickInteriorBounds` | main.py:215-220 | after a tick an interior Empty cell holds chemical in [0, 15] and an interior Mold cell chemical in [0, 20]: upkeep caps at 25 but adds 5 to a diffused value of at most 15 |
| `Simulation.TickBorderCanGoNegative` | main.py:150-158 | border cells are not clipped: a zero corner cell whose only Food within Chebyshev distance 2 is at (2, 2) ends the tick at -5/3 |
| `Simulation.RunObstaclesEmpty` | main.py:209-220 | from the first tick on, every interior Obstacle holds no chemical |

Consequences of the code's constants and stencils that the model makes explicit:

- Emission is not monotone. The whole 5x5 box is weighted by Manhattan distance, so the
  four (+-2, +-2) corners get 5 * (3 - 4) / 3 = -5/3, and nothing floors the result at 0
  (`EmitCornerLowers`).
- Border cells are copied by diffusion, never clipped, so a border cell can go negative:
  a zero corner cell near a lone Food cell ends a tick at -5/3 (`TickBorderCanGoNegative`).
- Diffusion is not monotone. With DIFFUSION_RATE = 0.3 and EVAPORATION_RATE = 0.2 the
  centre weight of the stencil is 1 - 0.2 - 4 * 0.3 < 0, so an Empty cell at 0 surrounded
  by 10 becomes 12, above the old maximum (`DiffusionCanExceedMaximum`). Only the clip to
  [0, 15] bounds interior cells. A zero field stays zero (`DiffuseZero`).
- Upkeep reinforcement caps at 25, but within one tick it adds 5 to a diffused value of at
  most 15, so an interior Mold cell ends a tick with at most 20 (`TickInteriorBounds`).

## Left out

- The pygame window, drawing, event loop and frame pacing (main.py:3-13, 201-227), and
  `CELL_SIZE` and `COLORS` (constants.py:4, 12-17): display and I/O.
- `initialize_chemicals` and the placement of the initial scenario (main.py:16-63): one-off
  setup that relies on floating-point `sqrt` and `exp`. The model starts from any grid and
  field.
- The `np.isfinite` guards (main.py:165-167, 188-190): with real numbers they never fire.
  float32 rounding is also not modelled.
- The random generator itself: it is replaced by the stream `draws`. The model does not
  need the draws to lie in [0, 1).
- The progress `print` (main.py:137-138): `GrowMold` returns the growth count instead.
- The stop signal of the main loop: `Run` counts ticks instead.
- The grid size is fixed at constants.py's 80 x 100; smaller grids are not modelled.
