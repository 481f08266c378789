/**
 * The decision part of `build_maze` in maze_game/maze.js and
 * maze_game/maze_level.js: which wall faces are emitted for each pixel and
 * where they are translated to, and (maze_level.js) the one static box shape
 * placed per wall pixel. The plane geometries and the physics body themselves
 * are not modelled; a face or a shape is the record of what was pushed.
 */
module MazeBuild {
  import opened Vectors
  import opened LevelImage
  import Arith

  /** The four faces of a wall cell: +X, -X, +Z and -Z. */
  datatype Side = PosX | NegX | PosZ | NegZ

  /** A face pushed for the wall pixel (x, y), with the translation applied to its plane. */
  datatype Face = Face(side: Side, x: int, y: int, center: Vec3)

  /** A box shape added to the maze body: its half extents and its offset in the body. */
  datatype Shape = Shape(half: Vec3, offset: Vec3)

  /** The pixel whose wall test decides whether the face on `side` of (x, y) is visible. */
  function Neighbour(side: Side, x: int, y: int): (int, int) {
    match side
    case PosX => (x + 1, y)
    case NegX => (x - 1, y)
    case PosZ => (x, y + 1)
    case NegZ => (x, y - 1)
  }

  /**
   * The translation of a face plane. As in the source, the X faces are pushed
   * out by half of cs.z and the Z faces by half of cs.x.
   */
  function FaceCenter(side: Side, x: int, y: int, cs: Vec3): (v: Vec3) {
    var cx := x as real * cs.x;
    var cz := y as real * cs.z;
    match side
    case PosX => Vec3(cx + cs.z / 2.0, 0.0, cz)
    case NegX => Vec3(cx - cs.z / 2.0, 0.0, cz)
    case PosZ => Vec3(cx, 0.0, cz + cs.x / 2.0)
    case NegZ => Vec3(cx, 0.0, cz - cs.x / 2.0)
  }

  /** The face on `side` of (x, y) when its neighbour is not a wall. */
  function FaceIfOpen(img: Raster, cs: Vec3, side: Side, x: int, y: int): (faces: seq<Face>)
    requires Ready(img)
  {
    var n := Neighbour(side, x, y);
    if WallAt(img, n.0, n.1) then [] else [Face(side, x, y, FaceCenter(side, x, y, cs))]
  }

  /** The faces of one pixel, in the order the source tests them; none for an open pixel. */
  function PixelFaces(img: Raster, cs: Vec3, x: int, y: int): (faces: seq<Face>)
    requires Ready(img)
  {
    if WallAt(img, x, y) then
      FaceIfOpen(img, cs, PosX, x, y) + FaceIfOpen(img, cs, NegX, x, y)
      + FaceIfOpen(img, cs, PosZ, x, y) + FaceIfOpen(img, cs, NegZ, x, y)
    else []
  }

  /** The faces pushed for the first n pixels, in pixel order. */
  function FacesUpTo(img: Raster, cs: Vec3, n: nat): (faces: seq<Face>)
    requires Ready(img) && n <= img.width * img.height
  {
    if n == 0 then []
    else
      Arith.PositiveFactor(img.width, img.height);
      FacesUpTo(img, cs, n - 1) + PixelFaces(img, cs, (n - 1) % img.width, (n - 1) / img.width)
  }

  /** The offset of the box shape of a wall pixel: its cell position, raised by half a cell. */
  function ShapeOffset(x: int, y: int, cs: Vec3): (v: Vec3) {
    Vec3(x as real * cs.x, cs.y / 2.0, y as real * cs.z)
  }

  /** The box shapes added for the first n pixels: one per wall pixel, in pixel order. */
  function ShapesUpTo(img: Raster, cs: Vec3, half: Vec3, n: nat): (shapes: seq<Shape>)
    requires Ready(img) && n <= img.width * img.height
  {
    if n == 0 then []
    else
      Arith.PositiveFactor(img.width, img.height);
      var x, y := (n - 1) % img.width, (n - 1) / img.width;
      ShapesUpTo(img, cs, half, n - 1) + (if WallAt(img, x, y) then [Shape(half, ShapeOffset(x, y, cs))] else [])
  }

  /** What makes a face legitimate: in the image, on a wall, facing a non-wall, at its translation. */
  predicate FaceRule(img: Raster, cs: Vec3, f: Face)
    requires Ready(img)
  {
    var n := Neighbour(f.side, f.x, f.y);
    0 <= f.x < img.width && 0 <= f.y < img.height
    && f.center == FaceCenter(f.side, f.x, f.y, cs)
    && WallAt(img, f.x, f.y) && !WallAt(img, n.0, n.1)
  }

  lemma PixelFacesMembers(img: Raster, cs: Vec3, x: int, y: int, f: Face)
    requires Ready(img)
    ensures f in PixelFaces(img, cs, x, y) <==>
      f.x == x && f.y == y && f.center == FaceCenter(f.side, x, y, cs)
      && WallAt(img, x, y) && !WallAt(img, Neighbour(f.side, x, y).0, Neighbour(f.side, x, y).1)
  {
  }

  /** Pixel k is the one at column k % width and row k / width, and no other. */
  lemma SamePixel(img: Raster, k: int, x: int, y: int)
    requires 0 <= k < img.width * img.height
    ensures (x == k % img.width && y == k / img.width)
      <==> (0 <= x < img.width && 0 <= y < img.height && PixelId(img, x, y) == k)
  {
    RowBound(k, img.width, img.height);
    if 0 <= x < img.width && 0 <= y < img.height && PixelId(img, x, y) == k {
      Arith.DivUnique(k, img.width, y, x);
    }
  }

  lemma PixelIdBound(img: Raster, x: int, y: int)
    requires 0 <= x < img.width && 0 <= y < img.height
    ensures 0 <= PixelId(img, x, y) < img.width * img.height
  {
    MulMono(y, img.height - 1, img.width);
    assert (img.height - 1) * img.width == img.height * img.width - img.width;
  }

  /** The faces of the first n pixels are exactly the legitimate faces of those pixels. */
  lemma {:induction false} FacesUpToMembers(img: Raster, cs: Vec3, n: nat, f: Face)
    requires Ready(img) && n <= img.width * img.height
    ensures f in FacesUpTo(img, cs, n) <==> FaceRule(img, cs, f) && PixelId(img, f.x, f.y) < n
  {
    if n > 0 {
      var k := n - 1;
      FacesUpToMembers(img, cs, k, f);
      FacesUpToStep(img, cs, k);
      PixelFacesRule(img, cs, k, f);
    }
  }

  /** The faces of pixel k are the legitimate faces at pixel number k. */
  lemma PixelFacesRule(img: Raster, cs: Vec3, k: nat, f: Face)
    requires Ready(img) && k < img.width * img.height
    ensures img.width > 0
    ensures f in PixelFaces(img, cs, k % img.width, k / img.width)
      <==> FaceRule(img, cs, f) && PixelId(img, f.x, f.y) == k
  {
    RowBound(k, img.width, img.height);
    PixelFacesMembers(img, cs, k % img.width, k / img.width, f);
    SamePixel(img, k, f.x, f.y);
  }

  /**
   * The face on `side` of (x, y) is emitted exactly when (x, y) is a wall pixel
   * of the image and the neighbour on that side is not a wall.
   */
  lemma FaceEmitted(img: Raster, cs: Vec3, side: Side, x: int, y: int)
    requires Ready(img)
    ensures var n := Neighbour(side, x, y);
      Face(side, x, y, FaceCenter(side, x, y, cs)) in FacesUpTo(img, cs, img.width * img.height)
      <==> 0 <= x < img.width && 0 <= y < img.height && WallAt(img, x, y) && !WallAt(img, n.0, n.1)
  {
    var f := Face(side, x, y, FaceCenter(side, x, y, cs));
    FacesUpToMembers(img, cs, img.width * img.height, f);
    if 0 <= x < img.width && 0 <= y < img.height {
      PixelIdBound(img, x, y);
    }
  }

  /** Every emitted face looks onto a pixel inside the image: the border never gets an outward face. */
  lemma NoOutwardFaces(img: Raster, cs: Vec3, n: nat, f: Face)
    requires Ready(img) && n <= img.width * img.height && f in FacesUpTo(img, cs, n)
    ensures var m := Neighbour(f.side, f.x, f.y);
      0 <= m.0 < img.width && 0 <= m.1 < img.height
  {
    FacesUpToMembers(img, cs, n, f);
    var m := Neighbour(f.side, f.x, f.y);
    assert !WallAt(img, m.0, m.1);
    if !(0 <= m.0 < img.width && 0 <= m.1 < img.height) {
      OutsideWallAt(img, m.0, m.1);
    }
  }

  /** Every shape of the first n pixels is the shape of a wall pixel below n. */
  lemma {:induction false} ShapesUpToSound(img: Raster, cs: Vec3, half: Vec3, n: nat, s: Shape)
    requires Ready(img) && n <= img.width * img.height && s in ShapesUpTo(img, cs, half, n)
    ensures exists x: int, y: int ::
      (0 <= x < img.width && 0 <= y < img.height && PixelId(img, x, y) < n
       && WallAt(img, x, y) && s == Shape(half, ShapeOffset(x, y, cs)))
  {
    var k := n - 1;
    RowBound(k, img.width, img.height);
    var x, y := k % img.width, k / img.width;
    if s in ShapesUpTo(img, cs, half, k) {
      ShapesUpToSound(img, cs, half, k, s);
    } else {
      SamePixel(img, k, x, y);
      assert WallAt(img, x, y) && s == Shape(half, ShapeOffset(x, y, cs));
    }
  }

  /** Every wall pixel below n has its shape among the first n pixels' shapes. */
  lemma {:induction false} ShapesUpToComplete(img: Raster, cs: Vec3, half: Vec3, n: nat, x: int, y: int)
    requires Ready(img) && n <= img.width * img.height
    requires 0 <= x < img.width && 0 <= y < img.height && PixelId(img, x, y) < n && WallAt(img, x, y)
    ensures Shape(half, ShapeOffset(x, y, cs)) in ShapesUpTo(img, cs, half, n)
  {
    var k := n - 1;
    RowBound(k, img.width, img.height);
    if PixelId(img, x, y) < k {
      ShapesUpToComplete(img, cs, half, k, x, y);
    } else {
      SamePixel(img, k, x, y);
    }
  }

  /** With non-zero cell width and depth, distinct pixels get distinct shape offsets. */
  lemma ShapeOffsetInjective(x: int, y: int, x': int, y': int, cs: Vec3)
    requires cs.x != 0.0 && cs.z != 0.0
    requires ShapeOffset(x, y, cs) == ShapeOffset(x', y', cs)
    ensures x == x' && y == y'
  {
    assert (x as real - x' as real) * cs.x == 0.0;
    assert (y as real - y' as real) * cs.z == 0.0;
  }

  /** The shape of pixel k is not among the shapes of the pixels before it. */
  lemma ShapeFresh(img: Raster, cs: Vec3, half: Vec3, k: nat)
    requires Ready(img) && k < img.width * img.height && cs.x != 0.0 && cs.z != 0.0
    ensures img.width > 0
    ensures Shape(half, ShapeOffset(k % img.width, k / img.width, cs)) !in ShapesUpTo(img, cs, half, k)
  {
    RowBound(k, img.width, img.height);
    var x, y := k % img.width, k / img.width;
    var s := Shape(half, ShapeOffset(x, y, cs));
    if s in ShapesUpTo(img, cs, half, k) {
      ShapesUpToSound(img, cs, half, k, s);
      var x', y' :| 0 <= x' < img.width && 0 <= y' < img.height && PixelId(img, x', y') < k
        && WallAt(img, x', y') && s == Shape(half, ShapeOffset(x', y', cs));
      ShapeOffsetInjective(x, y, x', y', cs);
      SamePixel(img, k, x, y);
      assert false;
    }
  }

  predicate Distinct<T(==)>(s: seq<T>) {
    forall i, j :: 0 <= i < j < |s| ==> s[i] != s[j]
  }

  lemma DistinctAppend<T>(s: seq<T>, t: seq<T>)
    requires Distinct(s) && Distinct(t) && forall x :: x in t ==> x !in s
    ensures Distinct(s + t)
  {
    forall i, j | 0 <= i < j < |s + t|
      ensures (s + t)[i] != (s + t)[j]
    {
      if i < |s| && j >= |s| {
        assert (s + t)[j] in t;
      }
    }
  }

  /**
   * With non-zero cell width and depth the shapes of the first n pixels are
   * pairwise distinct: a wall pixel gets exactly one box.
   */
  lemma {:induction false} ShapesDistinct(img: Raster, cs: Vec3, half: Vec3, n: nat)
    requires Ready(img) && n <= img.width * img.height && cs.x != 0.0 && cs.z != 0.0
    ensures Distinct(ShapesUpTo(img, cs, half, n))
  {
    if n > 0 {
      var k := n - 1;
      ShapesDistinct(img, cs, half, k);
      ShapeFresh(img, cs, half, k);
      var x, y := k % img.width, k / img.width;
      var prev := ShapesUpTo(img, cs, half, k);
      var added := if WallAt(img, x, y) then [Shape(half, ShapeOffset(x, y, cs))] else [];
      assert ShapesUpTo(img, cs, half, n) == prev + added;
      DistinctAppend(prev, added);
    }
  }

  /**
   * The four neighbour tests of a wall pixel, as the `build_maze` callback runs
   * them: each visible face is translated and pushed.
   */
  method WallFaces(img: Raster, cs: Vec3, x: int, y: int) returns (faces: seq<Face>)
    requires Ready(img)
    ensures faces == FaceIfOpen(img, cs, PosX, x, y) + FaceIfOpen(img, cs, NegX, x, y)
      + FaceIfOpen(img, cs, PosZ, x, y) + FaceIfOpen(img, cs, NegZ, x, y)
  {
    faces := OpenFace(img, cs, PosX, x, y);
    var more := OpenFace(img, cs, NegX, x, y);
    faces := faces + more;
    more := OpenFace(img, cs, PosZ, x, y);
    faces := faces + more;
    more := OpenFace(img, cs, NegZ, x, y);
    faces := faces + more;
  }

  /** One neighbour test: the face on `side` of (x, y) is pushed when the neighbour's record is not a wall. */
  method OpenFace(img: Raster, cs: Vec3, side: Side, x: int, y: int) returns (faces: seq<Face>)
    requires Ready(img)
    ensures faces == FaceIfOpen(img, cs, side, x, y)
  {
    var n := Neighbour(side, x, y);
    var near := GetPixelInfo(img, ConvertCoordToIndex(img, n.0 as real, n.1 as real));
    faces := [];
    if !IsWall(near) {
      faces := [Face(side, x, y, FaceCenter(side, x, y, cs))];
    }
  }

  /**
   * The `build_maze` callback for the record of pixel k: nothing for an open
   * pixel, the four neighbour tests for a wall pixel.
   */
  method PixelCallback(img: Raster, cs: Vec3, k: int) returns (faces: seq<Face>)
    requires Ready(img) && 0 <= k < img.width * img.height
    ensures img.width > 0 && faces == PixelFaces(img, cs, k % img.width, k / img.width)
  {
    PixelRecord(img, k);
    var info := GetPixelInfo(img, (4 * k) as real);
    faces := [];
    if IsWall(info) {
      faces := WallFaces(img, cs, info.value.x, info.value.y);
    }
  }

  lemma FacesUpToStep(img: Raster, cs: Vec3, k: nat)
    requires Ready(img) && k < img.width * img.height
    ensures img.width > 0
    ensures FacesUpTo(img, cs, k + 1) == FacesUpTo(img, cs, k) + PixelFaces(img, cs, k % img.width, k / img.width)
  {
    Arith.PositiveFactor(img.width, img.height);
  }

  lemma ShapesUpToStep(img: Raster, cs: Vec3, half: Vec3, k: nat)
    requires Ready(img) && k < img.width * img.height
    ensures img.width > 0
    ensures var x, y := k % img.width, k / img.width;
      ShapesUpTo(img, cs, half, k + 1)
      == ShapesUpTo(img, cs, half, k) + (if WallAt(img, x, y) then [Shape(half, ShapeOffset(x, y, cs))] else [])
  {
    Arith.PositiveFactor(img.width, img.height);
  }
}
