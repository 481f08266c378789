/**
 * The `Level` scene and the `world_state.line_trace` closure of
 * maze_game/maze.js: cells of 1 x 2 x 1 world units, the maze faces built
 * from the level image, and the clamp-to-origin slide with its debug bypass.
 */
module MazeScene {
  import opened Wrappers
  import opened Vectors
  import opened LevelImage
  import opened MazeBuild
  import opened TraceWalk
  import GameUtility
  import Arith

  /** `#cell_size` of this `Level`. */
  const CellSize: Vec3 := Vec3(1.0, 2.0, 1.0)

  /** `get_cell_position`: the world position divided by the cell size and rounded. */
  function GetCellPosition(position: Vec3): (c: Cell)
    ensures c.x as real - 0.5 <= position.x < c.x as real + 0.5
    ensures c.y as real - 0.5 <= position.y / 2.0 < c.y as real + 0.5
    ensures c.z as real - 0.5 <= position.z < c.z as real + 0.5
  {
    GameUtility.GetCellCoords(position, CellSize)
  }

  /** `get_cell_world_position`: grid coordinates scaled by the cell size. */
  function GetCellWorldPosition(c: Cell): (p: Vec3)
    ensures p.x == c.x as real && p.y == 2.0 * c.y as real && p.z == c.z as real
  {
    GameUtility.GetCellPosition(c, CellSize)
  }

  /** A cell's world position maps back to the same cell. */
  lemma WorldPositionRoundTrip(c: Cell)
    ensures GetCellPosition(GetCellWorldPosition(c)) == c
  {
    GameUtility.CellCoordsRoundTrip(c, CellSize);
  }

  /**
   * `build_maze`: the faces pushed while `for_each_pixel` walks the image,
   * four neighbour tests per wall pixel.
   */
  method BuildMaze(img: Raster) returns (faces: seq<Face>)
    requires Ready(img)
    ensures faces == FacesUpTo(img, CellSize, img.width * img.height)
  {
    faces := [];
    ReadyLength(img);
    var i := 0;
    ghost var k := 0;
    while i < |img.data|
      invariant 0 <= k <= img.width * img.height && i == 4 * k
      invariant faces == FacesUpTo(img, CellSize, k)
    {
      faces := AddPixel(img, i, k, faces);
      i := i + 4;
      k := k + 1;
    }
  }

  /** One round of the `for_each_pixel` walk: the record at index i = 4k, handed to the callback. */
  method AddPixel(img: Raster, i: int, ghost k: nat, faces: seq<Face>) returns (faces': seq<Face>)
    requires Ready(img) && k < img.width * img.height && i == 4 * k
    requires faces == FacesUpTo(img, CellSize, k)
    ensures faces' == FacesUpTo(img, CellSize, k + 1)
  {
    FacesUpToStep(img, CellSize, k);
    Arith.DivUnique(i, 4, k, 0);
    var pixel := PixelCallback(img, CellSize, i / 4);
    faces' := faces + pixel;
  }

  /** The origin sample of this closure: the image read at world (from.x, from.y). */
  function OriginSample(img: Raster, from: Vec3): (p: Option<PixelInfo>)
    requires Ready(img)
  {
    GetPixelInfo(img, ConvertCoordToIndex(img, from.x, from.y))
  }

  /**
   * `world_state.line_trace`: in debug mode the move is returned unchanged;
   * otherwise the clamp-to-origin walk over the traversal between the cells of
   * both ends, starting from the pixel at world (from.x, from.y).
   */
  method LineTrace(img: Raster, debug: bool, from: Vec3, to: Vec3) returns (r: TraceResult)
    requires Ready(img)
    ensures debug ==> r == TraceResult(false, to)
    ensures !debug ==> ToOriginResult(img, OriginSample(img, from), TracePath(CellSize, from, to), from, to, r)
  {
    if debug {
      return TraceResult(false, to);
    }
    var cells := TraceCells(CellSize, from, to);
    var origin := GetPixelInfo(img, ConvertCoordToIndex(img, from.x, from.y));
    r := SlideToOrigin(img, origin, cells, from, to);
  }
}
