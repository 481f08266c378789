# Maze prototype: grid-world kernel

A Dafny model of the grid-world kernel of a browser maze prototype:

- the cell-id byte codec;
- the integer 3D line traversal (`line_supercover` and its copies);
- the RGBA level image with its pixel lookup and wall test;
- the world <-> cell mapping;
- the face and box placement rule of `build_maze`;
- the three `world_state.line_trace` slide resolvers;
- the movement component;
- the input binding table;
- the resource cache;
- the `Signal` / `Reactive_Object` observer core.

The repository holds several evolutionary copies of the same code (`game_utility.js` and `game_ultility.js`, the `Level_Image` of `maze_game/maze.js` and of `maze_game/maze_level.js`, the three `line_trace` closures). Where two copies compute the same thing, one Dafny member models both, and the table below cites each copy.

Modules, one concern each:

| module | file | models |
|---|---|---|
| `Wrappers` | wrappers.dfy | `Option` |
| `Vectors`, `Arith` | vectors.dfy | `real` 3-vectors, integer cells, `Math.round`/`floor`/`ceil`, division facts |
| `CellCodec` | cell_codec.dfy | `decode_cell_id` / `encode_cell_id` |
| `GameUtility` | game_utility.dfy | distance, step, cell mapping, `line_supercover` (three `while` loops, proved against a closed-form path) |
| `LevelImage` | level_image.dfy | `Level_Image` lookup, `is_wall`, `for_each_pixel` |
| `MazeBuild` | maze_build.dfy | which faces and box shapes `build_maze` emits |
| `MazeScene` | maze_scene.dfy | `Level` of `maze_game/maze.js` (cell size 1 x 2 x 1) and its `line_trace` |
| `MazeLevel` | maze_level.dfy | `Maze_Level` (cell size 2 x 2 x 2), `get_cell_bounds`, `build_maze` with shapes |
| `TraceWalk` | trace_walk.dfy | the `forEach` walk shared by the `line_trace` closures |
| `MazeGame` | maze_game.dfy | `line_trace` of `maze_game/maze_game.js` |
| `RootMaze` | root_maze.dfy | `line_trace` of the root `maze.js` (floor/ceil offsets, debug bypass) |
| `Movement` | movement.dfy | `Movement_Component` as a class over a physics body |
| `Input` | input_manager.dfy | `Input_Manager` as a class holding its static state |
| `Resources` | resource_manager.dfy | `Resource_Manager` as a class over its four maps |
| `GameCore` | game_core.dfy | `Signal` and `Reactive_Object` classes |

## Modelling decisions

- **Numbers.** Positions are `real`. `Math.round` is floor(x + 1/2), and floor and ceil are `.Floor` and its dual.
- **Pixel index.** The pixel index is a `real`, because the origin lookups of `line_trace` pass raw world coordinates.
- **Channel reads.** A fractional index, or one past the buffer, reads `undefined`: a channel is `None`, and `undefined < 128` is false.
- **`forEach` does not stop.** The callback's `return` in the `line_trace` closures ends only that callback. Every cell of the traversal is processed, and a later wall can write the result again. The specifications quantify over all cells: collision iff some cell is a wall, and x (z) reset iff some wall met no safe pixel or found its probe blocked.
- **`#get_type_source`.** It tests the type-name constants, not its argument, so every typed call of the resource manager uses the renderer map.
- **`Resource_Manager.ALL_KEY`.** It is undefined, so the `'*'` branch of `dispose` is dead and `'*'` is an ordinary id there.
- **`Signal.delete`.** It assigns `true` over its own method, so a second `delete` is a TypeError. The model returns `ok == false` and changes nothing.
- **`dispose` on a present renderer entry.** `dispose` with type `'renderer'` calls an undeclared `renderer` and throws before anything changes. The model returns `ok == false`.
- **`negate()` in `on_collide`.** The physics engine's `Vec3.negate` returns the negation as a new vector and leaves its receiver alone, unlike three.js's in-place `Vector3.negate` used by `Maze_Level`. The result of `normal.negate()` is dropped, so the ground test reads `ni.y` whichever body is `bi`.
- **Imperative code.** Code that changes state step by step stays imperative: `while` loops for `line_supercover` and `for_each_pixel`, and classes with `modifies` clauses for the movement component, the input manager, the resource manager and the signals. Each method is proved against a specification function, and the lemmas state the source's promises about that function.

## Model

| member | source | states |
|---|---|---|
| CellCodec.DecodeCellId | maze_game/game_utility.js:26-51 | below 8: flag region, each sub-id a bit of R with area + 2 floor + 4 ceil = R; from 8: tile region, area < 16, floor < 8 and 8 + area + 16 floor + 128 ceil = R |
| CellCodec.EncodeCellId | maze_game/game_utility.js:53-65 | (0,0,0) gives 0; all sub-ids at most 1 gives a flag value below 8; otherwise a tile value of at least 10 |
| CellCodec.RoundTrip | maze_game/game_utility.js:26-65 | for wall < 16, floor < 8, ceil >= 0, decoding the encoding returns the same three sub-ids, in the flag region exactly when all fit in one bit |
| CellCodec.TileUnique | maze_game/game_utility.js:64 | the tile packing is injective on its documented ranges |
| CellCodec.EncodeDecode | maze_game/game_utility.js:26-65 | re-encoding a decoded value gives it back exactly unless it is a tile value whose sub-ids all fit in one bit |
| CellCodec.DivOfDiv | maze_game/game_utility.js:41-42 | the ceiling id read as floor(floor(v / 16) / 8) is floor(v / 128) |
| CellCodec.TileEightCollapses | maze_game/game_utility.js:38-65 | tile 8 decodes to all-zero sub-ids, which re-encode as flag value 0 |
| GameUtility.AbsDistance | maze_game/game_utility.js:71-77 | each component is non-negative and is one of the two differences; the same code is repeated in `maze_game/game_ultility.js:8-14` |
| GameUtility.AbsDistanceSymmetric | maze_game/game_utility.js:71-77 | the distance does not depend on the argument order |
| GameUtility.StepDirection | maze_game/game_utility.js:79-85 | every component is +1 or -1, and +1 exactly when start < end on that axis; the same code is repeated in `maze_game/game_ultility.js:16-22` |
| Vectors.Round | maze_game/game_utility.js:144-148 | `Math.round`: the integer within half of x, half-way values going up |
| GameUtility.GetCellCoords | maze_game/game_utility.js:143-149 | each cell coordinate is the position / cell size rounded half up; the same code is repeated in `maze_game/game_ultility.js:78-86` |
| GameUtility.GetCellPosition | maze_game/game_utility.js:151-157 | for a non-zero cell size, `get_cell_coords` maps the scaled coordinates back to the cell; the same code is repeated in `maze_game/game_ultility.js:88-95` |
| GameUtility.CellCoordsRoundTrip | maze_game/game_utility.js:143-157 | for a non-zero cell size, the cell of a cell's position is that cell; the same code is repeated in `maze_game/game_ultility.js:78-95` |
| GameUtility.NearestCell | maze_game/game_utility.js:143-157 | for a positive cell size, a point lies within half a cell of its cell's position |
| GameUtility.CellDelta | maze_game/game_utility.js:93 | the componentwise absolute difference of the floored ends |
| GameUtility.CellStep | maze_game/game_utility.js:95 | +1 towards a larger end coordinate, else -1, per axis |
| GameUtility.DrivingAxis | maze_game/game_utility.js:103-127 | X drives exactly when dx >= dy and dx >= dz; Y only when dy > dx and dy >= dz; Z only when it is strictly largest |
| GameUtility.Major | maze_game/game_utility.js:103-127 | the driving distance is max(dx, dy, dz) |
| GameUtility.LineSupercover | maze_game/game_utility.js:89-140 | the cells pushed are exactly the closed-form traversal between the floored ends; the same code is repeated in `maze_game/game_ultility.js:24-75` and `maze_game/maze.js:17-77` |
| GameUtility.WalkX | maze_game/game_utility.js:103-114 | the X-driven loop ends after dx iterations with the whole traversal |
| GameUtility.StepX | maze_game/game_utility.js:106-113 | one X-driven iteration moves from cell k to cell k + 1 and keeps both error accumulators in closed form |
| GameUtility.WalkY | maze_game/game_utility.js:115-126 | the Y-driven loop ends after dy iterations with the whole traversal |
| GameUtility.StepY | maze_game/game_utility.js:118-125 | one Y-driven iteration, as for X |
| GameUtility.WalkZ | maze_game/game_utility.js:127-138 | the Z-driven loop ends after dz iterations with the whole traversal |
| GameUtility.StepZ | maze_game/game_utility.js:130-137 | one Z-driven iteration, as for X |
| GameUtility.StepsAdvance | maze_game/game_ultility.js:42-48 | a minor axis steps exactly when its accumulator is non-negative, and the accumulator update is the one written |
| GameUtility.StepsAtMostOne | maze_game/game_ultility.js:42-48 | a minor axis advances by 0 or 1 step per iteration |
| GameUtility.StepsStart | maze_game/game_utility.js:97-99 | a minor axis has made no step before the first iteration |
| GameUtility.StepsOfZero | maze_game/game_utility.js:103-139 | an axis with no distance never steps |
| GameUtility.StepsEnd | maze_game/game_utility.js:103-139 | after the driving distance, a minor axis has made exactly its own distance in steps |
| GameUtility.PathStep | maze_game/game_ultility.js:41-73 | consecutive traversal cells differ as one loop iteration makes them differ |
| GameUtility.SupercoverEndpoints | maze_game/game_utility.js:97-139 | max(dx, dy, dz) + 1 cells, the first the floored start and the last the floored end |
| GameUtility.SupercoverSingleCell | maze_game/game_ultility.js:32-34 | equal floored ends give the single cell |
| GameUtility.SupercoverConnected | maze_game/game_utility.js:103-139 | the driving axis moves by its step, each other axis by 0 or its step, so consecutive cells are 26-neighbours and differ |
| GameUtility.SupercoverFixedAxis | maze_game/game_utility.js:103-139 | an axis with no distance keeps its coordinate along the whole path |
| LevelImage.ConvertCoordToIndex | maze_game/maze.js:113-120 | -1 exactly outside [0, w) x [0, h), otherwise 4 (y w + x); the same code is repeated in `maze_game/maze_level.js:42-48` |
| LevelImage.GetPixelInfo | maze_game/maze.js:121-140 | null exactly outside the buffer; otherwise id = floor(index / 4) with in-image x, y such that y w + x = id, and the four channels are the reads at index + 0 .. 3, `undefined` unless the index is integral; the same code is repeated in `maze_game/maze_level.js:49-67` |
| LevelImage.Channel | maze_game/maze.js:135-138 | a channel read is defined only at an integral index inside the buffer, where it is that byte |
| LevelImage.FractionalIndexOpen | maze_game/maze.js:121-140 | an in-buffer fractional index gives a record whose channels are all `undefined`, which is never a wall |
| LevelImage.PixelCoordsFormula | maze_game/maze.js:126-133 | the id == 0 branch agrees with x = id % w, y = floor(id / w) |
| LevelImage.PixelRoundTrip | maze_game/maze.js:113-140 | an integral in-image (x, y) is reported back with its four buffer bytes as channels; the same code is repeated in `maze_game/maze_level.js:42-67` |
| LevelImage.IsWall | maze_game/maze.js:264-270 | a missing record is a wall; a record with an `undefined` red, green or blue read is not; otherwise a wall exactly when red, green and blue are all below 128 |
| LevelImage.OutsideIsWall | maze_game/maze.js:264-270 | every coordinate outside the image reads as a wall |
| LevelImage.OutsideWallAt | maze_game/maze_level.js:137-143 | every grid coordinate outside the image is a wall |
| LevelImage.WallAtPixel | maze_game/maze.js:264-270 | inside the image, a wall exactly when the red, green and blue bytes are all below 128; the same code is repeated in `maze_game/maze_level.js:137-143` |
| LevelImage.ForEachPixel | maze_game/maze_level.js:68-72 | one record per pixel, in increasing index order, record k being the lookup of index 4k with id k |
| LevelImage.PixelRecord | maze_game/maze.js:141-145 | the record handed over for pixel k is the one at column k % w, row k / w, with the wall test at those coordinates |
| MazeBuild.FacesUpToMembers | maze_game/maze.js:209-230 | the faces of the first n pixels are exactly the faces on a wall pixel below n that look onto a non-wall neighbour, at their translation |
| MazeBuild.FaceEmitted | maze_game/maze.js:209-230 | the face on a side of (x, y) is emitted exactly when (x, y) is an in-image wall and its neighbour on that side is not; the same code is repeated in `maze_game/maze_level.js:180-200` |
| MazeBuild.NoOutwardFaces | maze_game/maze.js:209-230 | every emitted face looks onto an in-image pixel, so border pixels never get an outward face |
| MazeBuild.PixelFacesRule | maze_game/maze.js:209-230 | the faces of pixel k are exactly the faces of the face rule whose pixel number is k |
| MazeBuild.FacesUpToStep | maze_game/maze.js:141-145 | walking one more pixel appends that pixel's faces |
| MazeBuild.ShapesUpToStep | maze_game/maze_level.js:68-72 | walking one more pixel appends that pixel's box, if it is a wall |
| MazeBuild.ShapeFresh | maze_game/maze_level.js:209-213 | the box of pixel k is not among those of the earlier pixels |
| MazeBuild.PixelFacesMembers | maze_game/maze.js:209-230 | a pixel contributes exactly its faces that pass the neighbour test, and none when it is not a wall |
| MazeBuild.WallFaces | maze_game/maze.js:210-229 | the four neighbour tests push +X, -X, +Z, -Z in that order, each only when its neighbour is open |
| MazeBuild.OpenFace | maze_game/maze.js:210-213 | one neighbour test pushes the face exactly when the neighbour's record is not a wall |
| MazeBuild.PixelCallback | maze_game/maze.js:204-230 | the callback for pixel k pushes that pixel's faces |
| MazeBuild.ShapesUpToSound | maze_game/maze_level.js:209-213 | every shape added belongs to a wall pixel |
| MazeBuild.ShapesUpToComplete | maze_game/maze_level.js:209-213 | every wall pixel's shape is added |
| MazeBuild.ShapesDistinct | maze_game/maze_level.js:209-213 | no shape is added twice |
| MazeBuild.ShapeOffsetInjective | maze_game/maze_level.js:212 | distinct pixels get distinct box offsets |
| MazeScene.GetCellPosition | maze_game/maze.js:246-255 | the world position over (1, 2, 1), rounded half up |
| MazeScene.GetCellWorldPosition | maze_game/maze.js:256-263 | the cell scaled by (1, 2, 1) |
| MazeScene.WorldPositionRoundTrip | maze_game/maze.js:246-263 | a cell's world position maps back to the cell |
| MazeScene.BuildMaze | maze_game/maze.js:202-245 | the faces pushed while walking every pixel are the face rule's faces, in pixel order |
| MazeScene.AddPixel | maze_game/maze.js:204-230 | one round of the pixel walk extends the faces of the first k pixels to k + 1 |
| MazeScene.LineTrace | maze_game/maze.js:471-523 | debug returns no collision at `to`; otherwise the clamp-to-origin outcome over all cells, with origin sample at (from.x, from.y) |
| MazeLevel.CellLowerBoundary | maze_game/maze_level.js:122-124 | minus half the cell size: (-1, -1, -1) |
| MazeLevel.CellUpperBoundary | maze_game/maze_level.js:125-127 | half the cell size: (1, 1, 1) |
| MazeLevel.CellBoxSpan | maze_game/maze_level.js:122-127 | the boundaries are -size/2 and +size/2: the box spans one cell and is centred on the origin |
| MazeLevel.GetCellPosition | maze_game/maze_level.js:129-133 | the world position over (2, 2, 2), rounded half up |
| MazeLevel.GetCellWorldPosition | maze_game/maze_level.js:134-136 | coordinates times 2, plus half a cell in y |
| MazeLevel.WorldPositionRoundsUp | maze_game/maze_level.js:129-136 | the world position maps back to the cell one step up in y, because the half-way value rounds up |
| MazeLevel.GetCellBounds | maze_game/maze_level.js:146-158 | a given box is rewritten in place, else a fresh one is made; it is the cell box, translated to the cell's world position only when coordinates are given |
| MazeLevel.CellBoxOfCell | maze_game/maze_level.js:146-158 | the box of cell c spans 2c +- 1 in x and z and [2 c.y, 2 c.y + 2] in y |
| MazeLevel.GetCellSize | maze_game/maze_level.js:366 | the level's own `#cell_size`, (2, 2, 2) |
| MazeLevel.BoxHalfExtents | maze_game/maze_level.js:211 | every wall box has half extents get_cell_size() / 2 = (1, 1, 1) |
| MazeLevel.BuildMaze | maze_game/maze_level.js:159-237 | the faces and box shapes pushed while walking every pixel are the rules' faces and shapes, with one box of half extents get_cell_size() / 2 per wall pixel |
| MazeLevel.WalkPixels | maze_game/maze_level.js:170-216 | the `for_each_pixel` walk pushes the faces and boxes of every pixel, in pixel order |
| MazeLevel.AddPixel | maze_game/maze_level.js:170-216 | one round of the pixel walk extends faces and shapes from the first k pixels to k + 1 |
| MazeLevel.WallPixel | maze_game/maze_level.js:176-216 | a wall pixel adds its faces and one box at (x cs.x, cs.y / 2, y cs.z); an open pixel adds nothing |
| MazeLevel.OneBoxPerWall | maze_game/maze_level.js:180-213 | exactly one box per wall pixel, each of half extents (1, 1, 1) at its own pixel's offset, none for any other pixel |
| TraceWalk.TraceCells | maze_game/maze_game.js:174 | the traversal runs from the cell of `from` to the cell of `to`, both ends included |
| TraceWalk.SlideToOrigin | maze_game/maze_game.js:176-227 | over all cells: collision iff some cell is a wall; y back at from.y iff a wall met no safe pixel; x (z) back iff that or a blocked column (row) probe; otherwise `to` |
| TraceWalk.SlideWithOffset | maze.js:153-203 | collision and y as in the clamp-to-origin walk; x and z as the last writing wall left them |
| TraceWalk.BeforeExists | maze_game/maze_game.js:176-227 | the per-step flags of the walk mean "some earlier cell did this" |
| TraceWalk.NoWallNoChange | maze_game/maze_game.js:176-229 | with no wall on the traversal, both walks return no collision at `to` |
| TraceWalk.NoWallToOrigin | maze_game/maze_game.js:176-229 | with no wall on the traversal, the clamp-to-origin walk returns no collision at `to` |
| TraceWalk.NoWallWithOffset | maze.js:153-208 | with no wall on the traversal, the floor/ceil walk returns no collision at `to` |
| TraceWalk.LastSafeKept | maze_game/maze_game.js:225 | once a safe pixel is known it stays known |
| TraceWalk.OriginRecordNeverLost | maze_game/maze_game.js:175-191 | when the origin sample is a record, no cell of the walk falls into the lost-origin branch |
| TraceWalk.LastSafeIsOrigin | maze_game/maze_game.js:175-225 | the last safe pixel is the origin sample until the first non-wall cell |
| TraceWalk.OffsetNeverFrom | maze.js:174-200 | with the `maze_game` `get_step_direction` standing in for the root helper, the step is never 0, so the offset writes are floor(to) - d towards + and ceil(to) + d otherwise |
| TraceWalk.OffsetXLastWriter | maze.js:175-188 | the final x is `to.x` when no cell wrote it, else the value the last writing cell stored |
| TraceWalk.OffsetZLastWriter | maze.js:189-200 | the final z is `to.z` when no cell wrote it, else the value the last writing cell stored |
| TraceWalk.LastWriteWins | maze.js:174-200 | over any run of optional writes, the initial value stays when nothing writes, and otherwise the last write is what remains |
| TraceWalk.OffsetXStep | maze.js:175-188 | one cell either writes x (from.x after a lost origin, else the offset) or keeps it |
| TraceWalk.OffsetZStep | maze.js:189-200 | one cell either writes z (from.z after a lost origin, else the offset) or keeps it |
| TraceWalk.OffsetXAfterIsLastWrite | maze.js:153-203 | the walk's x after k cells is the last x write among the first k cells over `to.x` |
| TraceWalk.OffsetZAfterIsLastWrite | maze.js:153-203 | the walk's z after k cells is the last z write among the first k cells over `to.z` |
| MazeGame.LineTrace | maze_game/maze_game.js:164-231 | the clamp-to-origin outcome over the traversal between the two cells, with origin sample at (from.x, from.z) |
| MazeGame.FreeMoveGranted | maze_game/maze_game.js:168-229 | a move is granted unchanged with no collision exactly when no traversed cell is a wall |
| MazeGame.OriginInBufferNeverLost | maze_game/maze_game.js:175-191 | a mover whose world (x, z) indexes inside the buffer always has an origin record, so it is never lost; a fractional index gives an open record |
| RootMaze.LineTrace | maze.js:137-208 | debug returns no collision at `to`; otherwise the floor/ceil outcome with origin sample at (from.x, from.y) |
| Movement.ContactNormal | maze_game/movement_component.js:43-47 | the tested normal is `ni` itself whoever `bi` is: the engine's `negate()` returns a new vector, which line 46 drops, so a non-zero normal is never flipped |
| Movement.GroundingOfContact | maze_game/movement_component.js:43-52 | ground is latched iff `ni.y < -0.5`, and the outcome is the same whether or not this body is `bi` |
| Movement.BiDoesNotFlip | maze_game/movement_component.js:43-52 | with this body as `bi`, ni = (0, 1, 0) does not latch ground and ni = (0, -1, 0) does |
| Movement.IdleUpdatesIdempotent | maze_game/movement_component.js:67-73 | with a zero-length direction any number of updates leave the velocity unchanged |
| Movement.DefaultDirectionIdles | maze_game/movement_component.js:23-29 | the lazily created direction is zero, so until it is set no update moves the body |
| Movement.FastStaysPut | maze_game/movement_component.js:78-81 | at or above the maximum speed, no number of updates changes the velocity |
| Movement.NoClamp | maze_game/movement_component.js:78-81 | one update just below the maximum speed can leave the body above it |
| Movement.NextPush | maze_game/movement_component.js:78-81 | below the maximum speed with a non-zero direction, the velocity gains acceleration times direction |
| Movement.MovementComponent.constructor | maze_game/movement_component.js:17-19 | no body, maximum speed 5, acceleration 1, not on ground, no direction yet |
| Movement.MovementComponent.GetSpeed | maze_game/movement_component.js:20-22 | the private maximum speed |
| Movement.MovementComponent.GetDirection | maze_game/movement_component.js:23-29 | the stored direction, or a newly stored zero vector on first use |
| Movement.MovementComponent.OnCollide | maze_game/movement_component.js:42-53 | with a body: `on_ground` becomes old `on_ground` or `ni.y < -0.5`, whatever `bi` is, and is never false again; without a body: fails with no change |
| Movement.MovementComponent.PhysicsUpdate | maze_game/movement_component.js:54-83 | without a body nothing changes; with one, the direction is created if missing and the velocity takes one velocity-rule step |
| Input.InvertLookup | maze_game/input_manager.js:32-41 | the inverted table binds exactly the listed keys, each to its action when no key is shared |
| Input.DefaultKeysDisjoint | maze_game/input_manager.js:16-27 | no key of the default table belongs to two actions |
| Input.DefaultMapBindsEveryKey | maze_game/input_manager.js:16-41 | every default key maps to its own action |
| Input.SetKeysLookup | maze_game/input_manager.js:35-39 | writing one action's keys binds exactly those keys to it and leaves every other key's binding alone |
| Input.ToLower | maze_game/input_manager.js:46 | same length, and each character is lowered (A-Z to a-z, others unchanged) |
| Input.ToLowerIdempotent | maze_game/input_manager.js:46 | lowering a key twice is lowering it once |
| Input.ForwardKeys | maze_game/input_manager.js:16-46 | 'W', 'w' and 'ArrowUp' all yield FORWARD |
| Input.InputManager.constructor | maze_game/input_manager.js:16-30 | the default binding table, an empty key map and no pressed flags |
| Input.InputManager.InputMap | maze_game/input_manager.js:32-41 | the map is filled from the table only while empty, then returned; no flag changes |
| Input.InputManager.GetInputAction | maze_game/input_manager.js:42-44 | the action bound to the key, or none |
| Input.InputManager.InputEvent | maze_game/input_manager.js:45-51 | a bound lower-cased key writes the flag of exactly its action and returns it; an unbound key changes no flag and returns none |
| Input.InputManager.IsKeyDown | maze_game/input_manager.js:52-54 | the last flag written for the action, undefined before any event |
| Resources.GetTypeSource | maze_game/resource_manager.js:33-39 | always the renderer map |
| Resources.SharedStore | maze_game/resource_manager.js:33-39 | an id is present for one type exactly when it is for any other |
| Resources.ResourceManager.constructor | maze_game/resource_manager.js:22-25 | all four maps start empty and nothing is disposed |
| Resources.ResourceManager.HasResource | maze_game/resource_manager.js:120-126 | true exactly when the id is in the shared store |
| Resources.ResourceManager.Dispose | maze_game/resource_manager.js:42-66 | a present entry is disposed once and removed; an absent id changes nothing; the renderer type on a present entry fails with no change |
| Resources.ResourceManager.SetResource | maze_game/resource_manager.js:67-81 | null or '*' changes nothing; a new id is stored; an existing id is kept without override, else replaced after disposing the old value when `dispose` is set |
| Resources.ResourceManager.SetOfKind | maze_game/resource_manager.js:82-93 | the typed setters act on the shared store as `set_resource` does: null or '*' changes nothing; a new id is stored; an existing id is kept without override, else replaced, the old value disposed when `dispose` is set; the other maps stay |
| Resources.ResourceManager.GetResource | maze_game/resource_manager.js:95-106 | a present id yields its value and changes nothing; an absent id yields the fallback, stored only when caching a non-null fallback |
| Resources.ResourceManager.GetOfKind | maze_game/resource_manager.js:107-118 | the typed getters act on the shared store as `get_resource` does: a present id yields its value and changes nothing; an absent id yields the fallback, cached only when asked and not null; nothing is disposed and the other maps stay |
| Resources.ResourceManager.DisposeOfKind | maze_game/resource_manager.js:128-139 | the typed disposers remove only the given id (default '*'), failing only for the renderer type on a present entry |
| Resources.ResourceManager.DisposeAll | maze_game/resource_manager.js:142-151 | succeeds, removes only the entry '*' and disposes it once if it was present |
| GameCore.WithoutMembers | maze_game/game_core.js:11-13 | removing a callable keeps every other connection and drops that one |
| GameCore.KeptMembers | maze_game/game_core.js:14-20 | the survivors of an emit are the connections whose call did not return REMOVE |
| GameCore.KeptIsSubsequence | maze_game/game_core.js:14-20 | an emit never adds a connection, and removes none when no call returns REMOVE |
| GameCore.WithoutAbsent | maze_game/game_core.js:11-13 | disconnecting a callable that is not connected changes nothing |
| GameCore.WithoutAppend | maze_game/game_core.js:11-13 | removal works independently on the two parts of a connection list |
| GameCore.DistinctWithout | maze_game/game_core.js:4-13 | after a disconnect each callable is still held once |
| GameCore.RemoveCurrent | maze_game/game_core.js:16-18 | deleting the current callable mid-emit leaves the survivors so far followed by the rest of the snapshot |
| GameCore.KeptDistinct | maze_game/game_core.js:4 | the survivors of an emit still hold each callable once |
| GameCore.Signal.constructor | maze_game/game_core.js:4 | no connection and not deleted |
| GameCore.Signal.Connect | maze_game/game_core.js:5-10 | a function is added once and its disconnector returned; a non-function changes nothing |
| GameCore.Signal.Disconnect | maze_game/game_core.js:11-13 | removes the given callable and only it |
| GameCore.Signal.Emit | maze_game/game_core.js:14-20 | every connection is called once in insertion order; afterwards exactly those whose call did not return REMOVE remain, in order |
| GameCore.Signal.Visit | maze_game/game_core.js:16-18 | one call of the emit loop, disconnecting the callable when it returned REMOVE |
| GameCore.Signal.Clear | maze_game/game_core.js:21-23 | no connection is left |
| GameCore.Signal.Delete | maze_game/game_core.js:24-27 | the first delete clears and sets the flag; a second one fails with no change |
| GameCore.ReactiveObject.constructor | maze_game/game_core.js:33-36 | four fresh, distinct, empty signals, and not deleted |
| GameCore.ReactiveObject.Clear | maze_game/game_core.js:37 | emits `on_clear` |
| GameCore.ReactiveObject.Load | maze_game/game_core.js:38 | emits `on_load` |
| GameCore.ReactiveObject.Delete | maze_game/game_core.js:39-47 | sets deleted, emits `on_clear`, empties `on_change`, `on_clear` and `on_load`, then emits and empties `on_delete`; the object stays usable, and a second delete fails |

## Left out

- RootMaze.LineTrace: the root `maze.js` imports `Level` from a root `game_core.js` that is not modelled. Its cell size is a parameter. Its `get_cell_position` is taken to be `get_cell_coords` with that size. Its `is_wall` and its image's `get_pixel_info` are taken to be the ones of the `maze_game` levels. Its `line_supercover` and `get_step_direction` come from a root `game_ultility.js` that is not modelled; they are taken to be the `maze_game` copies, so the traversal is `SupercoverPath` and the step direction is never 0.
- Three.js geometry, materials and meshes, the merged buffer geometry and rendering. Only the decision of which faces and boxes are pushed is modelled.
- cannon-es physics: bodies, shapes, `World`, the `Ray` of `check_ground`, and the `body` setter's listeners. A body is its id and velocity.
- DOM and event wiring, image loading, `requestAnimationFrame`. The pixel buffer is a given sequence, and readiness is a precondition.
- `Resource_Manager.load_resource`, its constructor, `destroy`, and the real `.dispose()`. A log of disposed resources stands for `.dispose()`.
- `State` (`set`, `remove`, `clear`), because `set` refers to an undeclared `new_value` and `remove` deletes no key.
- Floating point: NaN, infinities, rounding error and `is_vector_valid`. Positions are exact reals.
- GameCore.Signal.Emit: the callbacks are a function from callable to result. A callback that connects or disconnects other callables during the emit is not modelled.
- GameCore.ReactiveObject.Delete: when a signal's `delete` fails (the object was deleted before), the model states only which steps ran; the partial state of the remaining signals is not stated.
- Movement.MovementComponent.PhysicsUpdate: the unused `delta` parameter is dropped, and speed is compared through squared lengths (|v| < max as |v|^2 < max^2 with max > 0).
- Movement.MovementComponent.GetDirection: the returned vector is a value. Aliasing of the stored direction object is not modelled.
- Input.ToLower: `toLowerCase` is modelled on ASCII letters only.
- Input.InputManager: the static state of the class is held in one instance.
