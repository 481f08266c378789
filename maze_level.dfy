/**
 * `Maze_Level` of maze_game/maze_level.js: cells of 2 x 2 x 2 world units
 * whose boxes stand on y = 0, the cell box query that rewrites a given box in
 * place, and `build_maze`, which emits the wall faces and one static box
 * shape per wall pixel.
 */
module MazeLevel {
  import opened Wrappers
  import opened Vectors
  import opened LevelImage
  import opened MazeBuild
  import GameUtility
  import Arith

  /** `#cell_size` of the level. */
  const CellSize: Vec3 := Vec3(2.0, 2.0, 2.0)

  /** `get_cell_lower_boundary`: minus half the cell size. */
  function CellLowerBoundary(): (lo: Vec3)
    ensures lo == Vec3(-1.0, -1.0, -1.0)
  {
    Negate(Halve(CellSize))
  }

  /** `get_cell_upper_boundary`: half the cell size. */
  function CellUpperBoundary(): (hi: Vec3)
    ensures hi == Vec3(1.0, 1.0, 1.0)
  {
    Halve(CellSize)
  }

  /** The cell box is centred on the origin and spans exactly one cell. */
  lemma CellBoxSpan()
    ensures Sub(CellUpperBoundary(), CellLowerBoundary()) == CellSize
    ensures Add(CellUpperBoundary(), CellLowerBoundary()) == Zero
  {
    assert CellUpperBoundary() == Vec3(1.0, 1.0, 1.0);
    assert CellLowerBoundary() == Vec3(-1.0, -1.0, -1.0);
    assert Add(CellUpperBoundary(), CellLowerBoundary()) == Vec3(1.0 + -1.0, 1.0 + -1.0, 1.0 + -1.0);
  }

  /** `get_cell_position`: `get_cell_coords` with the level's cell size. */
  function GetCellPosition(position: Vec3): (c: Cell)
    ensures c.x as real - 0.5 <= position.x / 2.0 < c.x as real + 0.5
    ensures c.y as real - 0.5 <= position.y / 2.0 < c.y as real + 0.5
    ensures c.z as real - 0.5 <= position.z / 2.0 < c.z as real + 0.5
  {
    GameUtility.GetCellCoords(position, CellSize)
  }

  /** `get_cell_world_position`: the cell's position raised by half a cell, the centre of its box. */
  function GetCellWorldPosition(c: Cell): (p: Vec3)
    ensures p == Vec3(2.0 * c.x as real, 2.0 * c.y as real + 1.0, 2.0 * c.z as real)
  {
    Add(GameUtility.GetCellPosition(c, CellSize), Vec3(0.0, CellSize.y / 2.0, 0.0))
  }

  /**
   * The world position of a cell lies half a cell above its grid position, so
   * `get_cell_position` maps it to the cell one step up in y (Math.round
   * rounds the half-way value upwards); x and z map back unchanged.
   */
  lemma WorldPositionRoundsUp(c: Cell)
    ensures GetCellPosition(GetCellWorldPosition(c)) == Cell(c.x, c.y + 1, c.z)
  {
    var p := GetCellWorldPosition(c);
    assert p.x / 2.0 == c.x as real;
    assert p.y / 2.0 == c.y as real + 0.5;
    assert p.z / 2.0 == c.z as real;
  }

  /** A `THREE.Box3`, which the level rewrites in place. */
  class Box3 {
    var min: Vec3
    var max: Vec3

    constructor(min: Vec3, max: Vec3)
      ensures this.min == min && this.max == max
    {
      this.min := min;
      this.max := max;
    }
  }

  /** The translation `get_cell_bounds` applies: the cell's world position when coords are given. */
  function BoundsOffset(coords: Option<Cell>): (v: Vec3) {
    match coords
    case None => Zero
    case Some(c) => GetCellWorldPosition(c)
  }

  /**
   * `get_cell_bounds`: resets the given box (or creates one) to the cell box
   * at the origin, then translates it to the cell's world position when
   * coordinates are given.
   */
  method GetCellBounds(coords: Option<Cell>, bounds: Box3?) returns (b: Box3)
    modifies bounds
    ensures bounds != null ==> b == bounds
    ensures bounds == null ==> fresh(b)
    ensures b.min == Add(CellLowerBoundary(), BoundsOffset(coords))
    ensures b.max == Add(CellUpperBoundary(), BoundsOffset(coords))
  {
    if bounds != null {
      bounds.min := CellLowerBoundary();
      bounds.max := CellUpperBoundary();
      b := bounds;
    } else {
      b := new Box3(CellLowerBoundary(), CellUpperBoundary());
    }
    if coords.Some? {
      var offset := GetCellWorldPosition(coords.value);
      b.min := Add(b.min, offset);
      b.max := Add(b.max, offset);
    }
  }

  /**
   * The box of a given cell spans its grid position +- half a cell in x and z
   * and stands on the cell's floor in y: from c.y * 2 to (c.y + 1) * 2.
   */
  lemma CellBoxOfCell(c: Cell)
    ensures var lo := Add(CellLowerBoundary(), BoundsOffset(Some(c)));
      var hi := Add(CellUpperBoundary(), BoundsOffset(Some(c)));
      lo == Vec3(2.0 * c.x as real - 1.0, 2.0 * c.y as real, 2.0 * c.z as real - 1.0)
      && hi == Vec3(2.0 * c.x as real + 1.0, 2.0 * c.y as real + 2.0, 2.0 * c.z as real + 1.0)
  {
  }

  /** `get_cell_size`: the level's own cell size. */
  function GetCellSize(): (s: Vec3)
    ensures s == Vec3(2.0, 2.0, 2.0)
  {
    CellSize
  }

  /** The half extents of every wall box: half of `get_cell_size()`. */
  lemma BoxHalfExtents()
    ensures Halve(GetCellSize()) == Vec3(1.0, 1.0, 1.0)
  {
  }

  /**
   * `build_maze`: walks every pixel record; a wall pixel gets its visible
   * faces and one box of half extents `get_cell_size() / 2` at its cell,
   * raised by half a cell.
   */
  method BuildMaze(img: Raster) returns (faces: seq<Face>, shapes: seq<Shape>)
    requires Ready(img)
    ensures faces == FacesUpTo(img, CellSize, img.width * img.height)
    ensures shapes == ShapesUpTo(img, CellSize, Halve(GetCellSize()), img.width * img.height)
  {
    faces, shapes := WalkPixels(img, Halve(GetCellSize()));
  }

  /** The `for_each_pixel` walk of `build_maze`, with boxes of half extents `half`. */
  method WalkPixels(img: Raster, half: Vec3) returns (faces: seq<Face>, shapes: seq<Shape>)
    requires Ready(img)
    ensures faces == FacesUpTo(img, CellSize, img.width * img.height)
    ensures shapes == ShapesUpTo(img, CellSize, half, img.width * img.height)
  {
    faces := [];
    shapes := [];
    ReadyLength(img);
    var i := 0;
    ghost var k := 0;
    while i < |img.data|
      invariant 0 <= k <= img.width * img.height && i == 4 * k
      invariant faces == FacesUpTo(img, CellSize, k)
      invariant shapes == ShapesUpTo(img, CellSize, half, k)
    {
      faces, shapes := AddPixel(img, half, i, k, faces, shapes);
      i := i + 4;
      k := k + 1;
    }
  }

  /** One round of the `for_each_pixel` walk: the record at index i = 4k, handed to the callback. */
  method AddPixel(img: Raster, half: Vec3, i: int, ghost k: nat, faces: seq<Face>, shapes: seq<Shape>)
    returns (faces': seq<Face>, shapes': seq<Shape>)
    requires Ready(img) && k < img.width * img.height && i == 4 * k
    requires faces == FacesUpTo(img, CellSize, k) && shapes == ShapesUpTo(img, CellSize, half, k)
    ensures faces' == FacesUpTo(img, CellSize, k + 1) && shapes' == ShapesUpTo(img, CellSize, half, k + 1)
  {
    FacesUpToStep(img, CellSize, k);
    ShapesUpToStep(img, CellSize, half, k);
    Arith.DivUnique(i, 4, k, 0);
    var pixelFaces, pixelShapes := WallPixel(img, half, i / 4);
    faces' := faces + pixelFaces;
    shapes' := shapes + pixelShapes;
  }

  /**
   * The `for_each_pixel` callback of `build_maze` for pixel k: the faces of
   * the shared face rule and, on a wall, the box added to the maze body.
   */
  method WallPixel(img: Raster, half: Vec3, k: int) returns (faces: seq<Face>, shapes: seq<Shape>)
    requires Ready(img) && 0 <= k < img.width * img.height
    ensures img.width > 0
    ensures faces == PixelFaces(img, CellSize, k % img.width, k / img.width)
    ensures var x, y := k % img.width, k / img.width;
      shapes == if WallAt(img, x, y) then [Shape(half, ShapeOffset(x, y, CellSize))] else []
  {
    PixelRecord(img, k);
    var info := GetPixelInfo(img, (4 * k) as real);
    faces := PixelCallback(img, CellSize, k);
    shapes := [];
    if IsWall(info) {
      shapes := [Shape(half, ShapeOffset(info.value.x, info.value.y, CellSize))];
    }
  }

  /** Every wall pixel of the level gets exactly one box of half extents (1, 1, 1), at its own cell, and nothing else does. */
  lemma OneBoxPerWall(img: Raster, x: int, y: int)
    requires Ready(img)
    ensures var shapes := ShapesUpTo(img, CellSize, Halve(GetCellSize()), img.width * img.height);
      Distinct(shapes)
      && (forall s :: s in shapes ==> s.half == Vec3(1.0, 1.0, 1.0))
      && (Shape(Vec3(1.0, 1.0, 1.0), ShapeOffset(x, y, CellSize)) in shapes
          <==> 0 <= x < img.width && 0 <= y < img.height && WallAt(img, x, y))
  {
    var half := Halve(GetCellSize());
    BoxHalfExtents();
    var n := img.width * img.height;
    ShapesDistinct(img, CellSize, half, n);
    forall s | s in ShapesUpTo(img, CellSize, half, n)
      ensures s.half == Vec3(1.0, 1.0, 1.0)
    {
      ShapesUpToSound(img, CellSize, half, n, s);
    }
    var s := Shape(half, ShapeOffset(x, y, CellSize));
    if 0 <= x < img.width && 0 <= y < img.height && WallAt(img, x, y) {
      PixelIdBound(img, x, y);
      ShapesUpToComplete(img, CellSize, half, n, x, y);
    }
    if s in ShapesUpTo(img, CellSize, half, n) {
      ShapesUpToSound(img, CellSize, half, n, s);
      var x', y' :| 0 <= x' < img.width && 0 <= y' < img.height && PixelId(img, x', y') < n
        && WallAt(img, x', y') && s == Shape(half, ShapeOffset(x', y', CellSize));
      ShapeOffsetInjective(x, y, x', y', CellSize);
    }
  }
}
