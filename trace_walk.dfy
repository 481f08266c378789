/**
 * The body of the `world_state.line_trace` closures: the walk over the cells
 * of the traversal that looks each cell up in the level image, remembers the
 * last pixel that was not a wall and, at a wall, probes the two horizontal
 * neighbours of that pixel to decide which axes of the move to cancel.
 *
 * The closures call `forEach`, whose callback `return` ends only the current
 * callback: every cell of the traversal is processed, and a later wall can
 * write the result again. The specifications below therefore speak of all
 * cells, not of the first wall.
 */
module TraceWalk {
  import opened Wrappers
  import opened Vectors
  import opened LevelImage
  import opened GameUtility

  /** The object the closures return (the field name is spelled as in the source). */
  datatype TraceResult = TraceResult(collsion: bool, intersection: Vec3)

  /** The cells the closures walk: the traversal between the rounded cells of both ends. */
  function TracePath(cs: Vec3, from: Vec3, to: Vec3): (path: seq<Cell>)
    requires cs.x != 0.0 && cs.y != 0.0 && cs.z != 0.0
  {
    SupercoverPath(GetCellCoords(from, cs), GetCellCoords(to, cs))
  }

  /**
   * The traversal the closures compute: `line_supercover` of the two rounded
   * cells, which floors them again to no effect.
   */
  method TraceCells(cs: Vec3, from: Vec3, to: Vec3) returns (cells: seq<Cell>)
    requires cs.x != 0.0 && cs.y != 0.0 && cs.z != 0.0
    ensures cells == TracePath(cs, from, to)
    ensures |cells| > 0 && cells[0] == GetCellCoords(from, cs) && cells[|cells| - 1] == GetCellCoords(to, cs)
  {
    var a := GetCellCoords(from, cs);
    var b := GetCellCoords(to, cs);
    cells := LineSupercover(AsVec(a), AsVec(b));
    FloorOfCell(a);
    FloorOfCell(b);
    SupercoverEndpoints(a, b);
  }

  /** The image pixel a traversal cell is looked up at: column cell.x, row cell.z. */
  function Sample(img: Raster, c: Cell): (p: Option<PixelInfo>)
    requires Ready(img)
  {
    GetPixelInfo(img, ConvertCoordToIndex(img, c.x as real, c.z as real))
  }

  /** Cell i of the walk is a wall. */
  predicate Hit(img: Raster, cells: seq<Cell>, i: int)
    requires Ready(img) && 0 <= i < |cells|
  {
    IsWall(Sample(img, cells[i]))
  }

  /**
   * `last_pixel_info` before cell i is handled: the origin sample, replaced by
   * each cell's pixel that is not a wall.
   */
  function LastSafe(img: Raster, origin: Option<PixelInfo>, cells: seq<Cell>, i: nat): (last: Option<PixelInfo>)
    requires Ready(img) && i <= |cells|
  {
    if i == 0 then origin
    else if Hit(img, cells, i - 1) then LastSafe(img, origin, cells, i - 1)
    else Sample(img, cells[i - 1])
  }

  /** The column probe: one pixel towards the mover's x direction from the last safe pixel, same row. */
  function ProbeX(img: Raster, from: Vec3, to: Vec3, last: PixelInfo): (p: Option<PixelInfo>)
    requires Ready(img)
  {
    var x := if from.x > to.x then last.x - 1 else last.x + 1;
    GetPixelInfo(img, ConvertCoordToIndex(img, x as real, last.y as real))
  }

  /** The row probe: one pixel towards the mover's z direction from the last safe pixel, same column. */
  function ProbeZ(img: Raster, from: Vec3, to: Vec3, last: PixelInfo): (p: Option<PixelInfo>)
    requires Ready(img)
  {
    var y := if from.z > to.z then last.y - 1 else last.y + 1;
    GetPixelInfo(img, ConvertCoordToIndex(img, last.x as real, y as real))
  }

  /** Cell i is a wall and no safe pixel is known: the intersection is reset to the start. */
  predicate OriginLost(img: Raster, origin: Option<PixelInfo>, cells: seq<Cell>, i: int)
    requires Ready(img) && 0 <= i < |cells|
  {
    Hit(img, cells, i) && LastSafe(img, origin, cells, i).None?
  }

  /** An origin sample that is a record (an index inside the buffer) is never lost, whichever cells follow. */
  lemma OriginRecordNeverLost(img: Raster, origin: Option<PixelInfo>, cells: seq<Cell>, i: int)
    requires Ready(img) && 0 <= i < |cells| && origin.Some?
    ensures !OriginLost(img, origin, cells, i)
  {
    LastSafeKept(img, origin, cells, 0, i);
  }

  /** Cell i is a wall and the column probe of the last safe pixel is a wall too. */
  predicate BlockedX(img: Raster, origin: Option<PixelInfo>, cells: seq<Cell>, from: Vec3, to: Vec3, i: int)
    requires Ready(img) && 0 <= i < |cells|
  {
    var last := LastSafe(img, origin, cells, i);
    Hit(img, cells, i) && last.Some? && IsWall(ProbeX(img, from, to, last.value))
  }

  /** Cell i is a wall and the row probe of the last safe pixel is a wall too. */
  predicate BlockedZ(img: Raster, origin: Option<PixelInfo>, cells: seq<Cell>, from: Vec3, to: Vec3, i: int)
    requires Ready(img) && 0 <= i < |cells|
  {
    var last := LastSafe(img, origin, cells, i);
    Hit(img, cells, i) && last.Some? && IsWall(ProbeZ(img, from, to, last.value))
  }

  /** Some cell before k is a wall. */
  predicate HitBefore(img: Raster, cells: seq<Cell>, k: nat)
    requires Ready(img) && k <= |cells|
  {
    k > 0 && (Hit(img, cells, k - 1) || HitBefore(img, cells, k - 1))
  }

  /** Some cell before k is a wall met with no safe pixel known. */
  predicate LostBefore(img: Raster, origin: Option<PixelInfo>, cells: seq<Cell>, k: nat)
    requires Ready(img) && k <= |cells|
  {
    k > 0 && (OriginLost(img, origin, cells, k - 1) || LostBefore(img, origin, cells, k - 1))
  }

  /** Some cell before k resets x to the start's. */
  predicate XResetBefore(img: Raster, origin: Option<PixelInfo>, cells: seq<Cell>, from: Vec3, to: Vec3, k: nat)
    requires Ready(img) && k <= |cells|
  {
    k > 0 && (OriginLost(img, origin, cells, k - 1) || BlockedX(img, origin, cells, from, to, k - 1)
              || XResetBefore(img, origin, cells, from, to, k - 1))
  }

  /** Some cell before k resets z to the start's. */
  predicate ZResetBefore(img: Raster, origin: Option<PixelInfo>, cells: seq<Cell>, from: Vec3, to: Vec3, k: nat)
    requires Ready(img) && k <= |cells|
  {
    k > 0 && (OriginLost(img, origin, cells, k - 1) || BlockedZ(img, origin, cells, from, to, k - 1)
              || ZResetBefore(img, origin, cells, from, to, k - 1))
  }

  /** The prefix predicates say that some earlier cell has the property. */
  lemma BeforeExists(img: Raster, origin: Option<PixelInfo>, cells: seq<Cell>, from: Vec3, to: Vec3, k: nat)
    requires Ready(img) && k <= |cells|
    ensures HitBefore(img, cells, k) <==> exists i :: 0 <= i < k && Hit(img, cells, i)
    ensures LostBefore(img, origin, cells, k) <==> exists i :: 0 <= i < k && OriginLost(img, origin, cells, i)
    ensures XResetBefore(img, origin, cells, from, to, k) <==>
      exists i :: 0 <= i < k && (OriginLost(img, origin, cells, i) || BlockedX(img, origin, cells, from, to, i))
    ensures ZResetBefore(img, origin, cells, from, to, k) <==>
      exists i :: 0 <= i < k && (OriginLost(img, origin, cells, i) || BlockedZ(img, origin, cells, from, to, i))
  {
    HitBeforeExists(img, cells, k);
    LostBeforeExists(img, origin, cells, k);
    XResetBeforeExists(img, origin, cells, from, to, k);
    ZResetBeforeExists(img, origin, cells, from, to, k);
  }

  lemma {:induction false} HitBeforeExists(img: Raster, cells: seq<Cell>, k: nat)
    requires Ready(img) && k <= |cells|
    ensures HitBefore(img, cells, k) <==> exists i :: 0 <= i < k && Hit(img, cells, i)
  {
    if k > 0 {
      HitBeforeExists(img, cells, k - 1);
    }
  }

  lemma {:induction false} LostBeforeExists(img: Raster, origin: Option<PixelInfo>, cells: seq<Cell>, k: nat)
    requires Ready(img) && k <= |cells|
    ensures LostBefore(img, origin, cells, k) <==> exists i :: 0 <= i < k && OriginLost(img, origin, cells, i)
  {
    if k > 0 {
      LostBeforeExists(img, origin, cells, k - 1);
    }
  }

  lemma {:induction false} XResetBeforeExists(img: Raster, origin: Option<PixelInfo>, cells: seq<Cell>, from: Vec3, to: Vec3, k: nat)
    requires Ready(img) && k <= |cells|
    ensures XResetBefore(img, origin, cells, from, to, k) <==>
      exists i :: 0 <= i < k && (OriginLost(img, origin, cells, i) || BlockedX(img, origin, cells, from, to, i))
  {
    if k > 0 {
      XResetBeforeExists(img, origin, cells, from, to, k - 1);
    }
  }

  lemma {:induction false} ZResetBeforeExists(img: Raster, origin: Option<PixelInfo>, cells: seq<Cell>, from: Vec3, to: Vec3, k: nat)
    requires Ready(img) && k <= |cells|
    ensures ZResetBefore(img, origin, cells, from, to, k) <==>
      exists i :: 0 <= i < k && (OriginLost(img, origin, cells, i) || BlockedZ(img, origin, cells, from, to, i))
  {
    if k > 0 {
      ZResetBeforeExists(img, origin, cells, from, to, k - 1);
    }
  }

  /**
   * The outcome of the clamp-to-origin walk over `cells`: a collision exactly
   * when some cell is a wall; x (z) back at the start's exactly when some wall
   * met no safe pixel or found its column (row) probe blocked; y back at the
   * start's only when a wall met no safe pixel. Everything else stays at `to`.
   */
  predicate ToOriginResult(img: Raster, origin: Option<PixelInfo>, cells: seq<Cell>, from: Vec3, to: Vec3, r: TraceResult)
    requires Ready(img)
  {
    (r.collsion <==> exists i :: 0 <= i < |cells| && Hit(img, cells, i))
    && r.intersection.x ==
      (if exists i :: 0 <= i < |cells| && (OriginLost(img, origin, cells, i) || BlockedX(img, origin, cells, from, to, i))
       then from.x else to.x)
    && r.intersection.y ==
      (if exists i :: 0 <= i < |cells| && OriginLost(img, origin, cells, i) then from.y else to.y)
    && r.intersection.z ==
      (if exists i :: 0 <= i < |cells| && (OriginLost(img, origin, cells, i) || BlockedZ(img, origin, cells, from, to, i))
       then from.z else to.z)
  }

  /**
   * The outcome of the floor/ceil walk: collision and y as in the
   * clamp-to-origin walk, x and z as the last cell that wrote them left them.
   */
  predicate WithOffsetResult(img: Raster, origin: Option<PixelInfo>, cells: seq<Cell>, from: Vec3, to: Vec3, r: TraceResult)
    requires Ready(img)
  {
    (r.collsion <==> exists i :: 0 <= i < |cells| && Hit(img, cells, i))
    && r.intersection.x == OffsetXAfter(img, origin, cells, from, to, |cells|)
    && r.intersection.y ==
      (if exists i :: 0 <= i < |cells| && OriginLost(img, origin, cells, i) then from.y else to.y)
    && r.intersection.z == OffsetZAfter(img, origin, cells, from, to, |cells|)
  }

  /** With no wall on the walk, both variants leave the move alone and report no collision. */
  lemma NoWallNoChange(img: Raster, origin: Option<PixelInfo>, cells: seq<Cell>, from: Vec3, to: Vec3, r: TraceResult)
    requires Ready(img) && forall i :: 0 <= i < |cells| ==> !Hit(img, cells, i)
    ensures ToOriginResult(img, origin, cells, from, to, r) ==> r == TraceResult(false, to)
    ensures WithOffsetResult(img, origin, cells, from, to, r) ==> r == TraceResult(false, to)
  {
    NoWallToOrigin(img, origin, cells, from, to, r);
    NoWallWithOffset(img, origin, cells, from, to, r);
  }

  lemma NoWallToOrigin(img: Raster, origin: Option<PixelInfo>, cells: seq<Cell>, from: Vec3, to: Vec3, r: TraceResult)
    requires Ready(img) && forall i :: 0 <= i < |cells| ==> !Hit(img, cells, i)
    ensures ToOriginResult(img, origin, cells, from, to, r) ==> r == TraceResult(false, to)
  {
    if ToOriginResult(img, origin, cells, from, to, r) {
      assert r.intersection == Vec3(to.x, to.y, to.z);
    }
  }

  lemma NoWallWithOffset(img: Raster, origin: Option<PixelInfo>, cells: seq<Cell>, from: Vec3, to: Vec3, r: TraceResult)
    requires Ready(img) && forall i :: 0 <= i < |cells| ==> !Hit(img, cells, i)
    ensures WithOffsetResult(img, origin, cells, from, to, r) ==> r == TraceResult(false, to)
  {
    forall i | 0 <= i < |cells|
      ensures !OriginLost(img, origin, cells, i)
      ensures !WritesX(img, origin, cells, from, to, i) && !WritesZ(img, origin, cells, from, to, i)
    {
      assert !Hit(img, cells, i);
    }
    OffsetXLastWriter(img, origin, cells, from, to, |cells|);
    OffsetZLastWriter(img, origin, cells, from, to, |cells|);
    if WithOffsetResult(img, origin, cells, from, to, r) {
      assert r.intersection == Vec3(to.x, to.y, to.z);
    }
  }

  /** A safe pixel, once known, stays known: `last_pixel_info` is only ever replaced by a pixel. */
  lemma {:induction false} LastSafeKept(img: Raster, origin: Option<PixelInfo>, cells: seq<Cell>, i: nat, j: nat)
    requires Ready(img) && i <= j <= |cells| && LastSafe(img, origin, cells, i).Some?
    ensures LastSafe(img, origin, cells, j).Some?
  {
    if j > i {
      LastSafeKept(img, origin, cells, i, j - 1);
    }
  }

  /** `last_pixel_info` is the origin sample until the first cell that is not a wall. */
  lemma {:induction false} LastSafeIsOrigin(img: Raster, origin: Option<PixelInfo>, cells: seq<Cell>, i: nat)
    requires Ready(img) && i <= |cells|
    requires forall j :: 0 <= j < i ==> Hit(img, cells, j)
    ensures LastSafe(img, origin, cells, i) == origin
  {
    if i > 0 {
      LastSafeIsOrigin(img, origin, cells, i - 1);
    }
  }

  /**
   * The `forEach` of maze_game/maze_game.js and maze_game/maze.js: every cell
   * is visited. A wall sets `collsion`; with no safe pixel it copies the start
   * into the intersection, otherwise a blocked column probe resets x and a
   * blocked row probe resets z to the start's.
   */
  method SlideToOrigin(img: Raster, origin: Option<PixelInfo>, cells: seq<Cell>, from: Vec3, to: Vec3)
    returns (r: TraceResult)
    requires Ready(img)
    ensures ToOriginResult(img, origin, cells, from, to, r)
  {
    r := TraceResult(false, to);
    var last := origin;
    var k := 0;
    while k < |cells|
      invariant 0 <= k <= |cells|
      invariant last == LastSafe(img, origin, cells, k)
      invariant r.collsion == HitBefore(img, cells, k)
      invariant r.intersection.x == if XResetBefore(img, origin, cells, from, to, k) then from.x else to.x
      invariant r.intersection.y == if LostBefore(img, origin, cells, k) then from.y else to.y
      invariant r.intersection.z == if ZResetBefore(img, origin, cells, from, to, k) then from.z else to.z
    {
      var pixel := Sample(img, cells[k]);
      if IsWall(pixel) {
        r := r.(collsion := true);
        if last.None? {
          r := r.(intersection := from);
        } else {
          if IsWall(ProbeX(img, from, to, last.value)) {
            r := r.(intersection := r.intersection.(x := from.x));
          }
          if IsWall(ProbeZ(img, from, to, last.value)) {
            r := r.(intersection := r.intersection.(z := from.z));
          }
        }
      } else {
        last := pixel;
      }
      k := k + 1;
    }
    BeforeExists(img, origin, cells, from, to, |cells|);
  }

  /** The x a wall write of the floor/ceil variant stores: the step is +1 or -1, so the last case never applies. */
  function OffsetX(from: Vec3, to: Vec3): (x: real) {
    var step := StepDirection(from, to);
    if step.x > 0.0 then Floor(to.x) as real - 0.01
    else if step.x < 0.0 then Ceil(to.x) as real + 0.01
    else from.x
  }

  function OffsetZ(from: Vec3, to: Vec3): (z: real) {
    var step := StepDirection(from, to);
    if step.z > 0.0 then Floor(to.z) as real - 0.001
    else if step.z < 0.0 then Ceil(to.z) as real + 0.001
    else from.z
  }

  /**
   * Because `get_step_direction` never yields 0, the offset writes are
   * floor(to) - d when moving towards +x (+z) and ceil(to) + d otherwise.
   */
  lemma OffsetNeverFrom(from: Vec3, to: Vec3)
    ensures OffsetX(from, to) == if from.x < to.x then Floor(to.x) as real - 0.01 else Ceil(to.x) as real + 0.01
    ensures OffsetZ(from, to) == if from.z < to.z then Floor(to.z) as real - 0.001 else Ceil(to.z) as real + 0.001
  {
  }

  /** The x of the result of the floor/ceil variant after the first k cells: the last write wins. */
  function OffsetXAfter(img: Raster, origin: Option<PixelInfo>, cells: seq<Cell>, from: Vec3, to: Vec3, k: nat): (x: real)
    requires Ready(img) && k <= |cells|
  {
    if k == 0 then to.x
    else if OriginLost(img, origin, cells, k - 1) then from.x
    else if BlockedX(img, origin, cells, from, to, k - 1) then OffsetX(from, to)
    else OffsetXAfter(img, origin, cells, from, to, k - 1)
  }

  function OffsetZAfter(img: Raster, origin: Option<PixelInfo>, cells: seq<Cell>, from: Vec3, to: Vec3, k: nat): (z: real)
    requires Ready(img) && k <= |cells|
  {
    if k == 0 then to.z
    else if OriginLost(img, origin, cells, k - 1) then from.z
    else if BlockedZ(img, origin, cells, from, to, k - 1) then OffsetZ(from, to)
    else OffsetZAfter(img, origin, cells, from, to, k - 1)
  }

  /**
   * The `forEach` of maze.js: as `SlideToOrigin`, except that a blocked probe
   * moves x (z) to just inside the cell boundary next to `to` instead of back
   * to `from`; the result's x and z are those of the last cell that wrote them.
   */
  method SlideWithOffset(img: Raster, origin: Option<PixelInfo>, cells: seq<Cell>, from: Vec3, to: Vec3)
    returns (r: TraceResult)
    requires Ready(img)
    ensures WithOffsetResult(img, origin, cells, from, to, r)
  {
    r := TraceResult(false, to);
    var last := origin;
    var k := 0;
    while k < |cells|
      invariant 0 <= k <= |cells|
      invariant last == LastSafe(img, origin, cells, k)
      invariant r.collsion == HitBefore(img, cells, k)
      invariant r.intersection.x == OffsetXAfter(img, origin, cells, from, to, k)
      invariant r.intersection.y == if LostBefore(img, origin, cells, k) then from.y else to.y
      invariant r.intersection.z == OffsetZAfter(img, origin, cells, from, to, k)
    {
      var pixel := Sample(img, cells[k]);
      if IsWall(pixel) {
        r := r.(collsion := true);
        if last.None? {
          r := r.(intersection := from);
        } else {
          var step := StepDirection(from, to);
          if IsWall(ProbeX(img, from, to, last.value)) {
            if step.x > 0.0 {
              r := r.(intersection := r.intersection.(x := Floor(to.x) as real - 0.01));
            } else if step.x < 0.0 {
              r := r.(intersection := r.intersection.(x := Ceil(to.x) as real + 0.01));
            } else {
              r := r.(intersection := r.intersection.(x := from.x));
            }
          }
          if IsWall(ProbeZ(img, from, to, last.value)) {
            if step.z > 0.0 {
              r := r.(intersection := r.intersection.(z := Floor(to.z) as real - 0.001));
            } else if step.z < 0.0 {
              r := r.(intersection := r.intersection.(z := Ceil(to.z) as real + 0.001));
            } else {
              r := r.(intersection := r.intersection.(z := from.z));
            }
          }
        }
      } else {
        last := pixel;
      }
      k := k + 1;
    }
    BeforeExists(img, origin, cells, from, to, |cells|);
  }

  /** The value left by a run of optional writes over `init`: the last write wins. */
  function LastWrite(ws: seq<Option<real>>, init: real, k: nat): (v: real)
    requires k <= |ws|
  {
    if k == 0 then init
    else if ws[k - 1].Some? then ws[k - 1].value
    else LastWrite(ws, init, k - 1)
  }

  /** Without a write the initial value stays; otherwise the last write is what remains. */
  lemma {:induction false} LastWriteWins(ws: seq<Option<real>>, init: real, k: nat)
    requires k <= |ws|
    ensures (forall i :: 0 <= i < k ==> ws[i].None?) ==> LastWrite(ws, init, k) == init
    ensures forall j ::
      (0 <= j < k && ws[j].Some? && (forall i :: j < i < k ==> ws[i].None?)) ==> LastWrite(ws, init, k) == ws[j].value
  {
    if k > 0 {
      if ws[k - 1].None? {
        LastWriteWins(ws, init, k - 1);
        forall j | 0 <= j < k && ws[j].Some? && (forall i :: j < i < k ==> ws[i].None?)
          ensures j < k - 1 && forall i :: j < i < k - 1 ==> ws[i].None?
        {
        }
      } else {
        forall j | 0 <= j < k && ws[j].Some? && (forall i :: j < i < k ==> ws[i].None?)
          ensures j == k - 1
        {
        }
      }
    }
  }

  /** A cell at which the floor/ceil variant writes x. */
  predicate WritesX(img: Raster, origin: Option<PixelInfo>, cells: seq<Cell>, from: Vec3, to: Vec3, i: int)
    requires Ready(img) && 0 <= i < |cells|
  {
    OriginLost(img, origin, cells, i) || BlockedX(img, origin, cells, from, to, i)
  }

  /**
   * Last writer wins: without any x write the result keeps to.x; otherwise it
   * holds the value written at the last writing cell, from.x after a lost
   * origin and the offset value after a blocked probe.
   */
  lemma {:induction false} OffsetXLastWriter(img: Raster, origin: Option<PixelInfo>, cells: seq<Cell>, from: Vec3, to: Vec3, k: nat)
    requires Ready(img) && k <= |cells|
    ensures (forall i :: 0 <= i < k ==> !WritesX(img, origin, cells, from, to, i))
      ==> OffsetXAfter(img, origin, cells, from, to, k) == to.x
    ensures forall j ::
      (0 <= j < k && WritesX(img, origin, cells, from, to, j)
       && (forall i :: j < i < k ==> !WritesX(img, origin, cells, from, to, i)))
      ==> (OffsetXAfter(img, origin, cells, from, to, k)
           == if OriginLost(img, origin, cells, j) then from.x else OffsetX(from, to))
  {
    var ws := XWrites(img, origin, cells, from, to);
    OffsetXAfterIsLastWrite(img, origin, cells, from, to, k);
    LastWriteWins(ws, to.x, k);
    forall i | 0 <= i < |cells|
      ensures ws[i].None? <==> !WritesX(img, origin, cells, from, to, i)
      ensures ws[i].Some? ==> ws[i].value == if OriginLost(img, origin, cells, i) then from.x else OffsetX(from, to)
    {
    }
  }

  /** The x each cell of the floor/ceil walk writes, if any. */
  function XWrites(img: Raster, origin: Option<PixelInfo>, cells: seq<Cell>, from: Vec3, to: Vec3): (ws: seq<Option<real>>)
    requires Ready(img)
    ensures |ws| == |cells|
  {
    seq(|cells|, i requires 0 <= i < |cells| =>
      if !WritesX(img, origin, cells, from, to, i) then None
      else Some(if OriginLost(img, origin, cells, i) then from.x else OffsetX(from, to)))
  }

  /** The walk's x after k cells is the last write among the first k. */
  lemma {:induction false} OffsetXAfterIsLastWrite(img: Raster, origin: Option<PixelInfo>, cells: seq<Cell>, from: Vec3, to: Vec3, k: nat)
    requires Ready(img) && k <= |cells|
    ensures OffsetXAfter(img, origin, cells, from, to, k) == LastWrite(XWrites(img, origin, cells, from, to), to.x, k)
  {
    if k > 0 {
      OffsetXAfterIsLastWrite(img, origin, cells, from, to, k - 1);
      OffsetXStep(img, origin, cells, from, to, k);
      var ws := XWrites(img, origin, cells, from, to);
      assert ws[k - 1] == if !WritesX(img, origin, cells, from, to, k - 1) then None
        else Some(if OriginLost(img, origin, cells, k - 1) then from.x else OffsetX(from, to));
    }
  }

  /** One cell of the walk: a cell that writes x decides it, any other keeps it. */
  lemma OffsetXStep(img: Raster, origin: Option<PixelInfo>, cells: seq<Cell>, from: Vec3, to: Vec3, k: nat)
    requires Ready(img) && 0 < k <= |cells|
    ensures OffsetXAfter(img, origin, cells, from, to, k)
      == if !WritesX(img, origin, cells, from, to, k - 1) then OffsetXAfter(img, origin, cells, from, to, k - 1)
         else if OriginLost(img, origin, cells, k - 1) then from.x else OffsetX(from, to)
  {
  }

  /** A cell at which the floor/ceil variant writes z. */
  predicate WritesZ(img: Raster, origin: Option<PixelInfo>, cells: seq<Cell>, from: Vec3, to: Vec3, i: int)
    requires Ready(img) && 0 <= i < |cells|
  {
    OriginLost(img, origin, cells, i) || BlockedZ(img, origin, cells, from, to, i)
  }

  /** Last writer wins for z as well. */
  lemma {:induction false} OffsetZLastWriter(img: Raster, origin: Option<PixelInfo>, cells: seq<Cell>, from: Vec3, to: Vec3, k: nat)
    requires Ready(img) && k <= |cells|
    ensures (forall i :: 0 <= i < k ==> !WritesZ(img, origin, cells, from, to, i))
      ==> OffsetZAfter(img, origin, cells, from, to, k) == to.z
    ensures forall j ::
      (0 <= j < k && WritesZ(img, origin, cells, from, to, j)
       && (forall i :: j < i < k ==> !WritesZ(img, origin, cells, from, to, i)))
      ==> (OffsetZAfter(img, origin, cells, from, to, k)
           == if OriginLost(img, origin, cells, j) then from.z else OffsetZ(from, to))
  {
    var ws := ZWrites(img, origin, cells, from, to);
    OffsetZAfterIsLastWrite(img, origin, cells, from, to, k);
    LastWriteWins(ws, to.z, k);
    forall i | 0 <= i < |cells|
      ensures ws[i].None? <==> !WritesZ(img, origin, cells, from, to, i)
      ensures ws[i].Some? ==> ws[i].value == if OriginLost(img, origin, cells, i) then from.z else OffsetZ(from, to)
    {
    }
  }

  /** The z each cell of the floor/ceil walk writes, if any. */
  function ZWrites(img: Raster, origin: Option<PixelInfo>, cells: seq<Cell>, from: Vec3, to: Vec3): (ws: seq<Option<real>>)
    requires Ready(img)
    ensures |ws| == |cells|
  {
    seq(|cells|, i requires 0 <= i < |cells| =>
      if !WritesZ(img, origin, cells, from, to, i) then None
      else Some(if OriginLost(img, origin, cells, i) then from.z else OffsetZ(from, to)))
  }

  /** The walk's z after k cells is the last write among the first k. */
  lemma {:induction false} OffsetZAfterIsLastWrite(img: Raster, origin: Option<PixelInfo>, cells: seq<Cell>, from: Vec3, to: Vec3, k: nat)
    requires Ready(img) && k <= |cells|
    ensures OffsetZAfter(img, origin, cells, from, to, k) == LastWrite(ZWrites(img, origin, cells, from, to), to.z, k)
  {
    if k > 0 {
      OffsetZAfterIsLastWrite(img, origin, cells, from, to, k - 1);
      OffsetZStep(img, origin, cells, from, to, k);
      var ws := ZWrites(img, origin, cells, from, to);
      assert ws[k - 1] == if !WritesZ(img, origin, cells, from, to, k - 1) then None
        else Some(if OriginLost(img, origin, cells, k - 1) then from.z else OffsetZ(from, to));
    }
  }

  /** One cell of the walk: a cell that writes z decides it, any other keeps it. */
  lemma OffsetZStep(img: Raster, origin: Option<PixelInfo>, cells: seq<Cell>, from: Vec3, to: Vec3, k: nat)
    requires Ready(img) && 0 < k <= |cells|
    ensures OffsetZAfter(img, origin, cells, from, to, k)
      == if !WritesZ(img, origin, cells, from, to, k - 1) then OffsetZAfter(img, origin, cells, from, to, k - 1)
         else if OriginLost(img, origin, cells, k - 1) then from.z else OffsetZ(from, to)
  {
  }
}
