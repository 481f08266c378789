/**
 * The `world_state.line_trace` closure of maze_game/maze_game.js: the
 * clamp-to-origin walk over the traversal between the cells of both ends in
 * the `Maze_Level` grid, starting from the pixel at world (from.x, from.z).
 * This closure has no debug bypass.
 */
module MazeGame {
  import opened Wrappers
  import opened Vectors
  import opened LevelImage
  import opened TraceWalk
  import MazeLevel

  /** The origin sample of this closure: the image read at world (from.x, from.z). */
  function OriginSample(img: Raster, from: Vec3): (p: Option<PixelInfo>)
    requires Ready(img)
  {
    GetPixelInfo(img, ConvertCoordToIndex(img, from.x, from.z))
  }

  /** `world_state.line_trace` of the maze game scene. */
  method LineTrace(img: Raster, from: Vec3, to: Vec3) returns (r: TraceResult)
    requires Ready(img)
    ensures ToOriginResult(img, OriginSample(img, from), TracePath(MazeLevel.CellSize, from, to), from, to, r)
  {
    var cells := TraceCells(MazeLevel.CellSize, from, to);
    var origin := GetPixelInfo(img, ConvertCoordToIndex(img, from.x, from.z));
    r := SlideToOrigin(img, origin, cells, from, to);
  }

  /**
   * A move that stays out of walls is granted unchanged; a move that meets a
   * wall reports a collision.
   */
  lemma {:induction false} FreeMoveGranted(img: Raster, from: Vec3, to: Vec3, r: TraceResult)
    requires Ready(img)
    requires ToOriginResult(img, OriginSample(img, from), TracePath(MazeLevel.CellSize, from, to), from, to, r)
    ensures var cells := TracePath(MazeLevel.CellSize, from, to);
      (forall i :: 0 <= i < |cells| ==> !Hit(img, cells, i)) <==> r == TraceResult(false, to)
  {
    var cells := TracePath(MazeLevel.CellSize, from, to);
    if forall i :: 0 <= i < |cells| ==> !Hit(img, cells, i) {
      NoWallNoChange(img, OriginSample(img, from), cells, from, to, r);
    }
  }

  /**
   * A mover whose world (x, z) lands inside the pixel buffer always has an
   * origin record, so its slide back to the origin is never lost; when that
   * index is fractional the record reads `undefined` channels and is open.
   */
  lemma OriginInBufferNeverLost(img: Raster, from: Vec3, cells: seq<Cell>, i: int)
    requires Ready(img) && InImage(img, from.x, from.z) && 0 <= i < |cells|
    requires ConvertCoordToIndex(img, from.x, from.z) < |img.data| as real
    ensures OriginSample(img, from).Some? && !OriginLost(img, OriginSample(img, from), cells, i)
    ensures var index := ConvertCoordToIndex(img, from.x, from.z);
      index != index.Floor as real ==> !IsWall(OriginSample(img, from))
  {
    var index := ConvertCoordToIndex(img, from.x, from.z);
    OriginRecordNeverLost(img, OriginSample(img, from), cells, i);
    if index != index.Floor as real {
      FractionalIndexOpen(img, index);
    }
  }
}
