/**
 * `Level_Image` of maze_game/maze.js and maze_game/maze_level.js (the two
 * copies differ only in logging): the RGBA pixel buffer of the level picture,
 * its coordinate -> index mapping, the pixel record lookup and the wall test
 * the levels apply to a pixel record.
 *
 * The index is a JavaScript number, so it is `real` here: callers pass raw
 * world coordinates as well as grid cells. Reading a typed array at a
 * fractional or too large index yields `undefined`, modelled as `None`.
 */
module LevelImage {
  import opened Wrappers
  import Arith

  /** A loaded image: its size and the bytes `getImageData` returned, four per pixel, row-major. */
  datatype Raster = Raster(width: nat, height: nat, data: seq<int>)

  /** `is_ready`: the buffer holds the four channels of every pixel. */
  predicate Ready(img: Raster) {
    |img.data| == 4 * img.width * img.height
  }

  lemma ReadyLength(img: Raster)
    requires Ready(img)
    ensures |img.data| == 4 * (img.width * img.height)
  {
  }

  /** The record `get_pixel_info` builds; a channel is `None` where the array read is `undefined`. */
  datatype PixelInfo = PixelInfo(id: int, x: int, y: int, r: Option<int>, g: Option<int>, b: Option<int>, a: Option<int>)

  predicate InImage(img: Raster, x: real, y: real) {
    0.0 <= x < img.width as real && 0.0 <= y < img.height as real
  }

  /** `convert_coord_to_index`: -1 outside the image, else the offset of the pixel's red byte. */
  function ConvertCoordToIndex(img: Raster, x: real, y: real): (index: real)
    ensures index == -1.0 <==> !InImage(img, x, y)
    ensures InImage(img, x, y) ==> index >= 0.0 && index == 4.0 * y * img.width as real + 4.0 * x
  {
    if x >= img.width as real || y >= img.height as real || x < 0.0 || y < 0.0 then -1.0
    else (y * img.width as real + x) * 4.0
  }

  /** `data[index + k]`: defined only at an integral index inside the buffer. */
  function Channel(img: Raster, index: real, k: nat): (c: Option<int>)
    ensures c.Some? ==> index == index.Floor as real && 0 <= index.Floor && index.Floor + k < |img.data| && c.value == img.data[index.Floor + k]
  {
    if index == index.Floor as real && 0 <= index.Floor && index.Floor + k < |img.data| then
      Some(img.data[index.Floor + k])
    else
      None
  }

  /**
   * `get_pixel_info`: null outside the buffer; otherwise the pixel number
   * floor(index / 4), its column and row (0, 0 for pixel 0, else
   * id % width and floor(id / width)) and the four channel reads.
   */
  function GetPixelInfo(img: Raster, index: real): (p: Option<PixelInfo>)
    requires Ready(img)
    ensures p.None? <==> index < 0.0 || index >= |img.data| as real
    ensures p.Some? ==>
      p.value.id == (index / 4.0).Floor
      && 0 <= p.value.x < img.width && 0 <= p.value.y < img.height
      && p.value.y * img.width + p.value.x == p.value.id
    ensures p.Some? ==>
      p.value.r == Channel(img, index, 0) && p.value.g == Channel(img, index, 1)
      && p.value.b == Channel(img, index, 2) && p.value.a == Channel(img, index, 3)
  {
    if index < 0.0 || index >= |img.data| as real then None
    else
      var id := (index / 4.0).Floor;
      IdBound(img, index);
      var x := if id == 0 then 0 else id % img.width;
      var y := if id == 0 then 0 else id / img.width;
      RowBound(id, img.width, img.height);
      Some(PixelInfo(id, x, y, Channel(img, index, 0), Channel(img, index, 1), Channel(img, index, 2), Channel(img, index, 3)))
  }

  lemma IdBound(img: Raster, index: real)
    requires Ready(img) && 0.0 <= index < |img.data| as real
    ensures 0 <= (index / 4.0).Floor < img.width * img.height
    ensures img.width > 0 && img.height > 0
  {
    Arith.PositiveFactor(img.width, img.height);
  }

  /** A pixel number below width * height has a row below height. */
  lemma RowBound(id: int, w: nat, h: nat)
    requires 0 <= id < w * h
    ensures w > 0 && id / w < h && id % w < w
    ensures id / w * w + id % w == id
  {
    Arith.PositiveFactor(w, h);
    if id / w >= h {
      assert id / w * w >= h * w by {
        MulMono(h, id / w, w);
      }
    }
  }

  lemma MulMono(a: int, b: int, w: nat)
    requires a <= b
    ensures a * w <= b * w
  {
  }

  /**
   * `is_wall`: a missing pixel is a wall; otherwise a pixel is a wall when its
   * red, green and blue reads are all below 128 (an `undefined` read compares false).
   */
  predicate IsWall(p: Option<PixelInfo>)
    ensures p.None? ==> IsWall(p)
    ensures p.Some? && (p.value.r.None? || p.value.g.None? || p.value.b.None?) ==> !IsWall(p)
    ensures p.Some? && p.value.r.Some? && p.value.g.Some? && p.value.b.Some? ==>
      (IsWall(p) <==> p.value.r.value < 128 && p.value.g.value < 128 && p.value.b.value < 128)
  {
    match p
    case None => true
    case Some(info) =>
      info.r.Some? && info.r.value < 128
      && info.g.Some? && info.g.value < 128
      && info.b.Some? && info.b.value < 128
  }

  /** The wall test of the pixel at grid coordinates (x, y), as the level asks it. */
  predicate WallAt(img: Raster, x: int, y: int)
    requires Ready(img)
  {
    IsWall(GetPixelInfo(img, ConvertCoordToIndex(img, x as real, y as real)))
  }

  /** The pixel number of an in-image grid coordinate. */
  function PixelId(img: Raster, x: int, y: int): (n: int) {
    y * img.width + x
  }

  /**
   * The `id == 0` special case of `get_pixel_info` agrees with the general
   * formula: every record holds id % width and floor(id / width).
   */
  lemma PixelCoordsFormula(img: Raster, index: real)
    requires Ready(img) && GetPixelInfo(img, index).Some?
    ensures var p := GetPixelInfo(img, index).value;
      img.width > 0 && p.x == p.id % img.width && p.y == p.id / img.width
  {
    var p := GetPixelInfo(img, index).value;
    IdBound(img, index);
    Arith.DivUnique(p.id, img.width, p.y, p.x);
  }

  /**
   * For integral in-image coordinates the lookup of `convert_coord_to_index(x, y)`
   * reports back x and y, and its channels are the pixel's four bytes.
   */
  lemma {:induction false} PixelRoundTrip(img: Raster, x: int, y: int)
    requires Ready(img) && 0 <= x < img.width && 0 <= y < img.height
    ensures var p := GetPixelInfo(img, ConvertCoordToIndex(img, x as real, y as real));
      var i := 4 * PixelId(img, x, y);
      p.Some? && p.value.x == x && p.value.y == y && p.value.id == PixelId(img, x, y)
      && i + 3 < |img.data|
      && p.value.r == Some(img.data[i]) && p.value.g == Some(img.data[i + 1])
      && p.value.b == Some(img.data[i + 2]) && p.value.a == Some(img.data[i + 3])
  {
    var id := PixelId(img, x, y);
    IndexOfPixel(img, x, y);
    var index := ConvertCoordToIndex(img, x as real, y as real);
    assert index == (4 * id) as real;
    assert (index / 4.0).Floor == id;
    var p := GetPixelInfo(img, index).value;
    PixelCoordsFormula(img, index);
    Arith.DivUnique(id, img.width, y, x);
  }

  /** The index of an in-image grid coordinate is four times its pixel number, inside the buffer. */
  lemma IndexOfPixel(img: Raster, x: int, y: int)
    requires Ready(img) && 0 <= x < img.width && 0 <= y < img.height
    ensures ConvertCoordToIndex(img, x as real, y as real) == (4 * PixelId(img, x, y)) as real
    ensures 0 <= 4 * PixelId(img, x, y) && 4 * PixelId(img, x, y) + 3 < |img.data|
  {
    MulMono(y, img.height - 1, img.width);
    assert (img.height - 1) * img.width == img.height * img.width - img.width;
    assert (y * img.width + x) as real == y as real * img.width as real + x as real;
  }

  /**
   * The record `for_each_pixel` hands over for pixel k is the one at its own
   * column and row, so its wall test is the wall test at those coordinates.
   */
  lemma PixelRecord(img: Raster, k: int)
    requires Ready(img) && 0 <= k < img.width * img.height
    ensures img.width > 0
    ensures var p := GetPixelInfo(img, (4 * k) as real);
      p.Some? && p.value.x == k % img.width && p.value.y == k / img.width
      && 0 <= k % img.width < img.width && 0 <= k / img.width < img.height
      && (IsWall(p) <==> WallAt(img, k % img.width, k / img.width))
  {
    RowBound(k, img.width, img.height);
    var x, y := k % img.width, k / img.width;
    assert PixelId(img, x, y) == k;
    PixelRoundTrip(img, x, y);
    IndexOfPixel(img, x, y);
  }

  /** Every coordinate outside the image reads as a wall. */
  lemma OutsideIsWall(img: Raster, x: real, y: real)
    requires Ready(img) && !InImage(img, x, y)
    ensures IsWall(GetPixelInfo(img, ConvertCoordToIndex(img, x, y)))
  {
  }

  /**
   * A fractional index inside the buffer, as a raw world coordinate yields,
   * gives a record whose four channel reads are all `undefined`, so it is
   * never a wall.
   */
  lemma FractionalIndexOpen(img: Raster, index: real)
    requires Ready(img) && 0.0 <= index < |img.data| as real && index != index.Floor as real
    ensures var p := GetPixelInfo(img, index);
      p.Some? && p.value.r.None? && p.value.g.None? && p.value.b.None? && p.value.a.None? && !IsWall(p)
  {
  }

  /** Every grid coordinate outside the image is a wall. */
  lemma OutsideWallAt(img: Raster, x: int, y: int)
    requires Ready(img) && !(0 <= x < img.width && 0 <= y < img.height)
    ensures WallAt(img, x, y)
  {
    OutsideIsWall(img, x as real, y as real);
  }

  /** Inside the image the wall test is a test on the pixel's red, green and blue bytes. */
  lemma WallAtPixel(img: Raster, x: int, y: int)
    requires Ready(img) && 0 <= x < img.width && 0 <= y < img.height
    ensures var i := 4 * PixelId(img, x, y);
      0 <= i && i + 2 < |img.data|
      && (WallAt(img, x, y) <==> img.data[i] < 128 && img.data[i + 1] < 128 && img.data[i + 2] < 128)
  {
    PixelRoundTrip(img, x, y);
  }

  /**
   * `for_each_pixel`: the callback receives the record at index 0, 4, 8, ...
   * below the buffer length. The model returns the records in call order.
   */
  method ForEachPixel(img: Raster) returns (infos: seq<Option<PixelInfo>>)
    requires Ready(img)
    ensures |infos| == img.width * img.height
    ensures forall k :: 0 <= k < |infos| ==>
      infos[k] == GetPixelInfo(img, (4 * k) as real)
      && infos[k].Some? && infos[k].value.id == k
  {
    infos := [];
    var i := 0;
    while i < |img.data|
      invariant 0 <= i <= |img.data| + 3 && i == 4 * |infos|
      invariant forall k :: 0 <= k < |infos| ==>
        infos[k] == GetPixelInfo(img, (4 * k) as real)
        && infos[k].Some? && infos[k].value.id == k
    {
      var info := GetPixelInfo(img, i as real);
      assert (i as real / 4.0).Floor == |infos|;
      infos := infos + [info];
      i := i + 4;
    }
  }
}
