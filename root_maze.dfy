/**
 * The `world_state.line_trace` closure of the top-level maze.js: the same
 * walk as the maze game's, with a debug bypass, the origin sample read at
 * world (from.x, from.y), and blocked axes moved next to the cell border
 * the move points at instead of back to the start.
 *
 * The `Level` this closure runs against is imported from a root
 * `game_core.js` that is not modelled: its cell size is a parameter, its
 * `get_cell_position` is taken to be `get_cell_coords` with that size, and
 * its `is_wall` and its image's `get_pixel_info` are taken to be those of the
 * two levels that are modelled. Its `line_supercover` and
 * `get_step_direction` come from a root `game_ultility.js` that is not
 * modelled either; they are taken to be the `maze_game` copies, so the
 * traversal is `SupercoverPath` and the step is `StepDirection`, never 0.
 */
module RootMaze {
  import opened Wrappers
  import opened Vectors
  import opened LevelImage
  import opened TraceWalk

  /** The origin sample of this closure: the image read at world (from.x, from.y). */
  function OriginSample(img: Raster, from: Vec3): (p: Option<PixelInfo>)
    requires Ready(img)
  {
    GetPixelInfo(img, ConvertCoordToIndex(img, from.x, from.y))
  }

  /** `world_state.line_trace` of the top-level scene. */
  method LineTrace(img: Raster, debug: bool, cs: Vec3, from: Vec3, to: Vec3) returns (r: TraceResult)
    requires Ready(img) && cs.x != 0.0 && cs.y != 0.0 && cs.z != 0.0
    ensures debug ==> r == TraceResult(false, to)
    ensures !debug ==> WithOffsetResult(img, OriginSample(img, from), TracePath(cs, from, to), from, to, r)
  {
    if debug {
      return TraceResult(false, to);
    }
    var cells := TraceCells(cs, from, to);
    var origin := GetPixelInfo(img, ConvertCoordToIndex(img, from.x, from.y));
    r := SlideWithOffset(img, origin, cells, from, to);
  }
}
