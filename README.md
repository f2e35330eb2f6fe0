# Puyo board and falling pairs in Dafny

This project models the playing field and the falling rules of a Puyo-style
block puzzle written in Rust on the Bevy engine.

- **Positions** (`positions.dfy`) holds the signed `GridPosition`, its
  translation, and the four edge neighbours that `get_adjacent` lists.
- **Pieces** (`pieces.dfy`) holds the four piece colours, the residue-to-colour
  draw of the bag, the spawn constants, and the pair's orientation, second cell
  and clockwise turn.
- **Grids** (`grid.dfy`) models the generic grid.
  - The class `Grid` keeps a row-major `array` of `width * height` cells, and
    `PlaceCell` writes into it in place.
  - `Board` is the grid's value view. Every query is stated over it: validity,
    emptiness (every border acts as a wall), the move and turn checks, the
    sideways pair moves, and the flood fill `FindConnComp`.
  - `FindConnComp` is a loop over an explicit work stack and a seen-set.
- **Falls** (`fall.dfy`) models the fall state machine and its velocity rule.
  - `UpdateFallPiece` is the loop of `update_fall_piece` over an array of
    piece entities. It writes each landing piece into the grid.
  - `FallingPair.UpdateFallPair` is `update_fall_pair` on the controlled pair.
    It reports the landed event as a flag.
  - Both are proved against the value-level functions `UpdatePieces`,
    `StepPiece` and `StepPair`, and the landing properties are lemmas about
    those functions.

Translations are real numbers in cell units, measured from the rest point of
cell (0, 0). In the source, a translation's `y` is `left_bottom_corner.y +
cell_size * y`, and its velocity is `cell_size` times the model's. Because
`cell_size` is positive, the landing comparison and the rounding to a cell
are the same in both scales.

## Model

| member | source | states |
|---|---|---|
| Positions.GridPosition.Translate | src/game_objects/grid.rs:40-44 | The translated position differs from the original by exactly the given row and column offsets. |
| Positions.TranslateCompose | src/game_objects/grid.rs:40-44 | Translations compose by adding their offsets, and the null translation is the identity. |
| Positions.GetAdjacent | src/game_objects/grid.rs:170-177 | The four returned positions are pairwise distinct, and they are exactly the edge neighbours of the position. |
| Pieces.PieceColorOf | src/game_objects/piece.rs:78-88 | Every 32-bit word maps to a colour whose index is the word mod 4, so the `panic!()` arm is unreachable. |
| Pieces.PieceColorOfOnto | src/game_objects/piece.rs:78-88 | A word draws colour c if and only if its residue mod 4 is c's index, so every colour can be drawn. |
| Pieces.Pair.New | src/game_objects/piece.rs:125-129 | A new pair is ABVertical, with its second piece directly below the first at row - 1. |
| Pieces.Pair.GetSecondPosition | src/game_objects/piece.rs:131-138 | The second piece's cell is always an edge neighbour of the first piece's cell. |
| Pieces.Pair.TurnClockwise | src/game_objects/piece.rs:140-151 | A turn always changes the orientation. |
| Pieces.TurnPeriod | src/game_objects/piece.rs:140-151 | Four clockwise turns give back the pair; one, two or three turns never do. |
| Pieces.TurnRotatesOffset | src/game_objects/piece.rs:131-151 | A turn maps the second piece's offset (dr, dc) to (-dc, dr): below, then left, then above, then right. |
| Pieces.SecondPositionTranslate | src/game_objects/piece.rs:131-138 | The second cell moves rigidly with the first: translating the first translates the second by the same offset. |
| Grids.OffsetRoundTrip | src/game_objects/grid.rs:140-155 | Row-major slot and position are inverse on valid positions, and every slot below width*height is a valid position. |
| Grids.OffsetInjective | src/game_objects/grid.rs:149-155 | Two valid positions share a slot if and only if they are equal. |
| Grids.GetIsRowMajor | src/game_objects/grid.rs:140-146 | Cell (k / width, k % width) is entry k of the data vector. |
| Grids.IndexExample | src/game_objects/grid.rs:229-235 | On the 2x2 board [1, 2, 3, 4], (0, 1) holds 2 and (1, 0) holds 3. |
| Grids.Board.Set | src/game_objects/grid.rs:77-79 | Writing v at p keeps the size invariant and the dimensions, makes cell p equal to v, and leaves every other cell unchanged. |
| Grids.EmptyBoard | src/game_objects/grid.rs:239 | A board of `None` cells has the given dimensions and every valid cell empty. |
| Grids.EdgesAreWalls | src/game_objects/grid.rs:83-104 | An empty position is valid, and every position one step outside an edge is not empty. A cell on the left, right or bottom edge cannot move through that edge. |
| Grids.MoveRightExample | src/game_objects/grid.rs:237-245 | On the empty 2x2 board, (0, 0) can move right and (0, 1) cannot. |
| Grids.Grid.constructor | src/game_objects/grid.rs:48-63 | Building a grid requires width*height == the data length. The new grid holds exactly the given cells in row-major order. |
| Grids.Grid.Index | src/game_objects/grid.rs:140-146 | Indexing a valid position yields that position's cell in the row-major view. |
| Grids.Grid.PlaceCell | src/game_objects/grid.rs:77-79 | Cell p becomes value, every other cell is unchanged, and the dimensions and data length are kept. |
| Grids.IndexGridExample | src/game_objects/grid.rs:229-235 | A grid built from [1, 2, 3, 4] reads 2 at (0, 1) and 3 at (1, 0). |
| Grids.MoveRightPair | src/game_objects/grid.rs:106-118 | The pair moves exactly one column right, with the row unchanged, if and only if the cells right of both pieces are empty. Otherwise it stays. The grid is not modified. |
| Grids.MoveLeftPair | src/game_objects/grid.rs:120-132 | The pair moves exactly one column left, with the row unchanged, if and only if the cells left of both pieces are empty. Otherwise it stays. The grid is not modified. |
| Grids.TurnLands | src/game_objects/grid.rs:134-137 | When a turn is allowed, the turned second piece lands on a valid, empty cell next to the first piece. |
| Grids.ColorCells | src/game_objects/grid.rs:209-211 | The set holds exactly the valid cells that contain a piece of the given colour. |
| Grids.UnseenSpec | src/game_objects/grid.rs:186-190 | The positions pushed to the stack are exactly the unseen neighbours, and no position is pushed twice. |
| Grids.AddPosition | src/game_objects/grid.rs:179-192 | The position is appended to the component, the unseen neighbours are pushed to the stack, and the seen-set grows by all four neighbours. |
| Grids.FindConnComp | src/game_objects/grid.rs:194-218 | An empty seed gives []. Otherwise the result is the seed's connected component. |
| Grids.ConnCompMeaning | src/game_objects/grid.rs:194-218 | A component starts with the seed and has no repeated position. Every member is a valid cell of the seed's colour, reached from an earlier member. Every same-coloured neighbour of a member is a member (maximality). |
| Grids.ConnCompUnique | src/game_objects/grid.rs:194-218 | Any two components from the same seed hold the same positions. |
| Grids.ConnCompExample | src/game_objects/grid.rs:250-264 | On the board (Red, Red / Blue, empty), the flood fill from (0, 0) returns exactly [(0, 0), (0, 1)]. |
| Grids.ConnCompEmptySeedExample | src/game_objects/grid.rs:197-198 | An empty seed cell yields the empty list. |
| Falls.Fall.New | src/game_objects/fall.rs:27-32 | A new fall is Normal and keeps the given base velocity. |
| Falls.Fall.GetVelocity | src/game_objects/fall.rs:34-40 | The velocity is 3 × base for Fast, the base for Normal, and 0 for Stopped. |
| Falls.VelocityOrder | src/game_objects/fall.rs:11 | For a non-negative base, the speeds are ordered Stopped (0) ≤ Normal ≤ Fast, and Fast is exactly three times Normal. |
| Falls.Round | src/game_objects/grid.rs:72-73 | The result is within 0.5 of x, and an exact half rounds away from zero. |
| Falls.RoundExamples | src/game_objects/grid.rs:72-73 | Integers round to themselves, 2.5 rounds to 3, -2.5 to -3, and 0.49 to 0. |
| Falls.RestPoint | src/game_objects/grid.rs:65-69 | Cell (row, col) rests at x = col and y = row. |
| Falls.PositionAt | src/game_objects/grid.rs:71-75 | The cell read from a translation is within half a cell of it on both axes. |
| Falls.PositionAtRestPoint | src/game_objects/grid.rs:65-75 | Reading back a cell's rest point gives that cell. |
| Falls.Fallen | src/game_objects/fall.rs:57 | The entity drops by dt × velocity, and x is unchanged. |
| Falls.StepPiece | src/game_objects/fall.rs:56-66 | One piece step keeps the grid's size invariant and dimensions, and the piece's id, colour and base velocity. |
| Falls.PieceStopsOnlyWhenBlocked | src/game_objects/fall.rs:57-62 | The new position is the cell of the fallen translation. A moving piece becomes Stopped if and only if its cell cannot move down and it has passed the cell's rest height. |
| Falls.LandingWritesOneCell | src/game_objects/fall.rs:60-64 | A landing piece snaps to its cell's rest point, stops, and writes its colour and entity into exactly that cell. All other cells are unchanged. |
| Falls.PieceOffBoard | src/game_objects/fall.rs:64 | A step fails if and only if the piece lands on a cell off the board. |
| Falls.FreePieceKeepsGrid | src/game_objects/fall.rs:57-60 | A piece that can still move down leaves the grid and its fall state unchanged, and only drops by dt × velocity. |
| Falls.PieceStaysStopped | src/game_objects/fall.rs:56-66 | A Stopped piece does not fall, stays Stopped, and keeps its translation or snaps to its cell. |
| Falls.SettledPieceIsFixed | src/game_objects/fall.rs:56-66 | A stopped piece resting on its cell leaves itself and the grid exactly as they were. |
| Falls.UpdatePieces | src/game_objects/fall.rs:56-66 | The fold over the query keeps the grid's size invariant and dimensions, and yields one entity per piece. |
| Falls.OffBoardPersists | src/game_objects/fall.rs:56-66 | Once some prefix of the pieces lands off the board, the whole frame does. |
| Falls.UpdateKeepsStopped | src/game_objects/fall.rs:56-66 | A frame keeps every piece's id, colour and base velocity, and never moves a piece out of Stopped. |
| Falls.UpdateWritesOnlyLandings | src/game_objects/fall.rs:56-66 | Every cell a frame changes holds a piece that is now Stopped in that very cell. |
| Falls.UpdateFallPiece | src/game_objects/fall.rs:43-67 | The in-place loop leaves the grid and the pieces exactly as `UpdatePieces` computes. It reports failure if and only if a landing falls off the board. |
| Falls.PieceLandsOnce | src/game_objects/fall.rs:56-66 | A piece that has landed is left alone in every later frame, whatever the grid then holds. |
| Falls.StepPair | src/game_objects/fall.rs:77-90 | A pair step keeps the pair's orientation and base velocity. |
| Falls.FallingPair.constructor | src/game_objects/fall.rs:70 | The pair's components are the given ones. |
| Falls.FallingPair.UpdateFallPair | src/game_objects/fall.rs:69-91 | The pair's new components and the landed flag are those of `StepPair` on the current grid. |
| Falls.PairLandsOnlyWhenBlocked | src/game_objects/fall.rs:77-90 | The pair lands if and only if its first or its second cell cannot move down and it has passed the rest height. Landing snaps it and stops it. Otherwise its fall is unchanged and it only drops. |
| Falls.PairStaysStopped | src/game_objects/fall.rs:79-87 | A Stopped pair does not fall, stays Stopped, and keeps its translation or snaps to its cell. |
| Falls.PairLandsOnce | src/game_objects/fall.rs:85-89 | A landed pair sends no further landed event and stays where it is in every later frame. |
| Falls.SpawnIsFree | src/game_objects/piece.rs:19-22 | On the empty 20×10 grid, the spawn cell (18, 5) and the new pair's second cell (17, 5) are valid and empty, and the pair can fall. |

## Left out

- Float geometry:
  - `f32` arithmetic is modelled with exact reals in cell units;
  - `cell_size` and `left_bottom_corner` are factored out (see above);
  - the `z` coordinate is left out;
  - the saturation of `round() as isize` is left out.
- The `transform.translation.x` updates in `move_right_pair`/`move_left_pair`
  are left out. `Grids.MoveRightPair` and `Grids.MoveLeftPair` return the new
  position instead of writing through `&mut GridPosition`.
- `adjust_transform` is left out. It only sets the second sprite's screen
  offset.
- Bevy scheduling, queries, commands, sprites, the camera, `setup`,
  `spawn_piece` and src/main.rs are left out:
  - `Res<Time>` becomes the `dt` parameter;
  - the query over pieces becomes an array, iterated in array order;
  - the single game grid and the single controlled pair become parameters.
- `PairLandedEvent` is reduced to the `landed` flag of
  `FallingPair.UpdateFallPair`. Its payload and delivery are not modelled.
- The bag's random number generator (`StdRng::from_entropy`, `next_u32`)
  becomes the `u32` argument of `Pieces.PieceColorOf`.
- `PieceColor::get_color`, `Bag::new_piece` and the rendering constants are
  not part of this model.
- src/game_objects/movement.rs and the auto-repeat timer are not part of this
  model.
- Match clearing, thresholds and gravity compaction are not in the modelled
  source, so they are not modelled.
- Indexing and `place_cell` require a valid position:
  - `Grids.Grid.Index`, `Grids.Grid.PlaceCell` and `Grids.FindConnComp` state
    this as a precondition;
  - Rust would alias the next row for a column past the width, and panic for
    a negative or too-large index.
- `Falls.StepPiece`: a landing whose cell is off the board is reported as
  `OffBoard` and ends the frame. Rust would panic or alias there.
- `Falls.UpdateFallPiece`: when a landing falls off the board, the method stops
  at that piece. The contract only reports failure and does not describe the
  partial state.
- `Grids.FindConnComp` does not state the order of the component beyond its
  first element. The order of the rest depends on the stack discipline.
- `GridPosition` coordinates and `usize` sizes are unbounded integers. `isize`
  overflow is not modelled.
- Nothing in the modelled code sets `FallState::Fast`. The Fast velocity is
  modelled, but no transition into it is.
- The test grid of `Grids.ConnCompExample` is built from its row-major cells
  rather than by three indexed writes.
- `PieceColor` is compared at grid.rs:211 without deriving `PartialEq`, and
  fall.rs:64 writes `Some(entity)` into a grid of `(PieceColor, Entity)`
  cells. The model uses datatype equality and a (colour, entity) cell.
- A landed pair writes nothing to the grid and is not split into pieces here;
  the model follows the code.
