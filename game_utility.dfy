/**
 * The vector helpers of maze_game/game_utility.js (and their allocating twins in
 * maze_game/game_ultility.js): distances, step directions, the world <-> grid
 * mapping, and `line_supercover`, the integer 3D Bresenham traversal.
 */
module GameUtility {
  import opened Vectors
  import Arith

  /** `get_abs_distance`: the componentwise |end - start|. */
  function AbsDistance(start: Vec3, end: Vec3): (r: Vec3)
    ensures r.x >= 0.0 && (r.x == end.x - start.x || r.x == start.x - end.x)
    ensures r.y >= 0.0 && (r.y == end.y - start.y || r.y == start.y - end.y)
    ensures r.z >= 0.0 && (r.z == end.z - start.z || r.z == start.z - end.z)
  {
    Vec3(RealAbs(end.x - start.x), RealAbs(end.y - start.y), RealAbs(end.z - start.z))
  }

  function RealAbs(a: real): (x: real) {
    if a < 0.0 then -a else a
  }

  lemma AbsDistanceSymmetric(a: Vec3, b: Vec3)
    ensures AbsDistance(a, b) == AbsDistance(b, a)
  {
  }

  /** `get_step_direction`: +1 on an axis exactly when start < end there, otherwise -1 (never 0). */
  function StepDirection(start: Vec3, end: Vec3): (r: Vec3)
    ensures (r.x == 1.0 <==> start.x < end.x) && (r.x == 1.0 || r.x == -1.0)
    ensures (r.y == 1.0 <==> start.y < end.y) && (r.y == 1.0 || r.y == -1.0)
    ensures (r.z == 1.0 <==> start.z < end.z) && (r.z == 1.0 || r.z == -1.0)
  {
    Vec3(if start.x < end.x then 1.0 else -1.0,
         if start.y < end.y then 1.0 else -1.0,
         if start.z < end.z then 1.0 else -1.0)
  }

  /** `get_cell_coords`: position / cell_size, rounded componentwise with Math.round. */
  function GetCellCoords(position: Vec3, cellSize: Vec3): (c: Cell)
    requires cellSize.x != 0.0 && cellSize.y != 0.0 && cellSize.z != 0.0
    ensures c.x as real - 0.5 <= position.x / cellSize.x < c.x as real + 0.5
    ensures c.y as real - 0.5 <= position.y / cellSize.y < c.y as real + 0.5
    ensures c.z as real - 0.5 <= position.z / cellSize.z < c.z as real + 0.5
  {
    Cell(Round(position.x / cellSize.x), Round(position.y / cellSize.y), Round(position.z / cellSize.z))
  }

  /**
   * `get_cell_position`: grid coordinates scaled back to world space. For a
   * non-zero cell size, `get_cell_coords` maps the result back to `c`.
   */
  function GetCellPosition(c: Cell, cellSize: Vec3): (p: Vec3)
    ensures cellSize.x != 0.0 && cellSize.y != 0.0 && cellSize.z != 0.0 ==> GetCellCoords(p, cellSize) == c
  {
    var p := Vec3(c.x as real * cellSize.x, c.y as real * cellSize.y, c.z as real * cellSize.z);
    assert cellSize.x != 0.0 && cellSize.y != 0.0 && cellSize.z != 0.0 ==>
      p.x / cellSize.x == c.x as real && p.y / cellSize.y == c.y as real && p.z / cellSize.z == c.z as real;
    p
  }

  /** For integer coordinates and a non-zero cell size the two mappings are inverse. */
  lemma CellCoordsRoundTrip(c: Cell, cellSize: Vec3)
    requires cellSize.x != 0.0 && cellSize.y != 0.0 && cellSize.z != 0.0
    ensures GetCellCoords(GetCellPosition(c, cellSize), cellSize) == c
  {
    var p := GetCellPosition(c, cellSize);
    assert p.x / cellSize.x == c.x as real;
    assert p.y / cellSize.y == c.y as real;
    assert p.z / cellSize.z == c.z as real;
  }

  /** With a positive cell size, a point lies within half a cell of its cell's position. */
  lemma NearestCell(position: Vec3, cellSize: Vec3)
    requires cellSize.x > 0.0 && cellSize.y > 0.0 && cellSize.z > 0.0
    ensures var p := GetCellPosition(GetCellCoords(position, cellSize), cellSize);
      p.x - cellSize.x / 2.0 <= position.x < p.x + cellSize.x / 2.0
      && p.y - cellSize.y / 2.0 <= position.y < p.y + cellSize.y / 2.0
      && p.z - cellSize.z / 2.0 <= position.z < p.z + cellSize.z / 2.0
  {
    var c := GetCellCoords(position, cellSize);
    HalfCell(position.x, cellSize.x, c.x);
    HalfCell(position.y, cellSize.y, c.y);
    HalfCell(position.z, cellSize.z, c.z);
  }

  lemma HalfCell(p: real, s: real, n: int)
    requires s > 0.0 && n as real - 0.5 <= p / s < n as real + 0.5
    ensures n as real * s - s / 2.0 <= p < n as real * s + s / 2.0
  {
    ScaledHalf(p, p / s, s, n as real);
  }

  lemma ScaledHalf(p: real, q: real, s: real, m: real)
    requires s > 0.0 && q == p / s && m - 0.5 <= q < m + 0.5
    ensures m * s - s / 2.0 <= p < m * s + s / 2.0
  {
    assert q * s == p;
    MulLe(m - 0.5, q, s);
    MulLt(q, m + 0.5, s);
  }

  lemma MulLe(a: real, b: real, s: real)
    requires s > 0.0 && a <= b
    ensures a * s <= b * s
  {
  }

  lemma MulLt(a: real, b: real, s: real)
    requires s > 0.0 && a < b
    ensures a * s < b * s
  {
  }

  // ---------------------------------------------------------------------------
  // line_supercover

  /** The integer view of `get_abs_distance` on floored endpoints. */
  function CellDelta(s: Cell, e: Cell): (d: Cell)
    ensures d.x == Abs(e.x - s.x) && d.y == Abs(e.y - s.y) && d.z == Abs(e.z - s.z)
  {
    FloorCell(AbsDistance(AsVec(s), AsVec(e)))
  }

  /** The integer view of `get_step_direction` on floored endpoints. */
  function CellStep(s: Cell, e: Cell): (st: Cell)
    ensures st.x == (if s.x < e.x then 1 else -1)
    ensures st.y == (if s.y < e.y then 1 else -1)
    ensures st.z == (if s.z < e.z then 1 else -1)
  {
    FloorCell(StepDirection(AsVec(s), AsVec(e)))
  }

  datatype Axis = AxisX | AxisY | AxisZ

  /**
   * The driving axis: the first of X, Y, Z whose distance is at least both
   * others. Z is chosen only when its distance is strictly the largest.
   */
  function DrivingAxis(d: Cell): (a: Axis)
    ensures a == AxisX <==> d.x >= d.y && d.x >= d.z
    ensures a == AxisY ==> d.y > d.x && d.y >= d.z
    ensures a == AxisZ ==> d.z > d.x && d.z > d.y
  {
    if d.x >= d.y && d.x >= d.z then AxisX
    else if d.y >= d.x && d.y >= d.z then AxisY
    else AxisZ
  }

  /** The distance along the driving axis: the largest of the three. */
  function Major(d: Cell): (m: int)
    ensures m >= d.x && m >= d.y && m >= d.z
    ensures m == d.x || m == d.y || m == d.z
  {
    match DrivingAxis(d)
    case AxisX => d.x
    case AxisY => d.y
    case AxisZ => d.z
  }

  /**
   * How many times a minor axis with distance `dm` has stepped after `k`
   * iterations driven by distance `dM`: the Bresenham count
   * floor((2*dm*k + dM) / (2*dM)).
   */
  function Steps(dm: nat, dM: nat, k: nat): (n: nat) {
    if dM == 0 then 0 else (2 * dm * k + dM) / (2 * dM)
  }

  /** The error accumulator of a minor axis before the test of iteration k. */
  function Err(dm: nat, dM: nat, k: nat): (n: int) {
    2 * dm * (k + 1) - dM - 2 * dM * Steps(dm, dM, k)
  }

  /** Moving `n` steps from `a` in direction `st` (which is +1 or -1). */
  function Offset(a: int, st: int, n: int): (m: int) {
    if st == 1 then a + n else a - n
  }

  /** The i-th cell of the traversal from s to e, in closed form. */
  function PathCell(s: Cell, e: Cell, i: nat): (c: Cell) {
    var d := CellDelta(s, e);
    var st := CellStep(s, e);
    match DrivingAxis(d)
    case AxisX => Cell(Offset(s.x, st.x, i), Offset(s.y, st.y, Steps(d.y, d.x, i)), Offset(s.z, st.z, Steps(d.z, d.x, i)))
    case AxisY => Cell(Offset(s.x, st.x, Steps(d.x, d.y, i)), Offset(s.y, st.y, i), Offset(s.z, st.z, Steps(d.z, d.y, i)))
    case AxisZ => Cell(Offset(s.x, st.x, Steps(d.x, d.z, i)), Offset(s.y, st.y, Steps(d.y, d.z, i)), Offset(s.z, st.z, i))
  }

  /** The reference traversal between two integer cells. */
  function SupercoverPath(s: Cell, e: Cell): (path: seq<Cell>) {
    seq(Major(CellDelta(s, e)) + 1, i requires 0 <= i => PathCell(s, e, i))
  }

  lemma StepsStart(dm: nat, dM: nat)
    ensures Steps(dm, dM, 0) == 0
  {
    if dM > 0 {
      Arith.DivUnique(dM, 2 * dM, 0, dM);
    }
  }

  lemma StepsEnd(dm: nat, dM: nat)
    requires dM > 0
    ensures Steps(dm, dM, dM) == dm
  {
    assert 2 * dm * dM + dM == dm * (2 * dM) + dM;
    Arith.DivUnique(2 * dm * dM + dM, 2 * dM, dm, dM);
  }

  lemma StepsOfZero(dM: nat, k: nat)
    ensures Steps(0, dM, k) == 0
  {
    if dM > 0 {
      Arith.DivUnique(dM, 2 * dM, 0, dM);
    }
  }

  /** One iteration of a minor axis: it steps exactly when its accumulator is non-negative. */
  lemma StepsAdvance(dm: nat, dM: nat, k: nat)
    requires 0 < dM && dm <= dM
    ensures Steps(dm, dM, k + 1) == Steps(dm, dM, k) + (if Err(dm, dM, k) >= 0 then 1 else 0)
    ensures Err(dm, dM, k + 1) == Err(dm, dM, k) - (if Err(dm, dM, k) >= 0 then 2 * dM else 0) + 2 * dm
  {
    var D := 2 * dM;
    var X := 2 * dm * k + dM;
    var q, r := X / D, X % D;
    assert X == q * D + r;
    assert Err(dm, dM, k) == r + 2 * dm - D;
    assert 2 * dm * (k + 1) + dM == X + 2 * dm;
    if r + 2 * dm >= D {
      Arith.DivUnique(X + 2 * dm, D, q + 1, r + 2 * dm - D);
    } else {
      Arith.DivUnique(X + 2 * dm, D, q, r + 2 * dm);
    }
    assert 2 * dm * (k + 2) == 2 * dm * (k + 1) + 2 * dm;
  }

  lemma StepsAtMostOne(dm: nat, dM: nat, k: nat)
    requires 0 < dM && dm <= dM
    ensures Steps(dm, dM, k) <= Steps(dm, dM, k + 1) <= Steps(dm, dM, k) + 1
  {
    StepsAdvance(dm, dM, k);
  }

  /** Bump `a` by `st` when the accumulator `err` is non-negative. */
  function Bump(a: int, st: int, err: int): (n: int) {
    if err >= 0 then a + st else a
  }

  /** One iteration of the traversal, read off the closed form. */
  lemma {:induction false} PathStep(s: Cell, e: Cell, k: nat)
    requires k < Major(CellDelta(s, e))
    ensures var d := CellDelta(s, e);
      var st := CellStep(s, e);
      var a := PathCell(s, e, k);
      var b := PathCell(s, e, k + 1);
      match DrivingAxis(d)
      case AxisX => b == Cell(a.x + st.x, Bump(a.y, st.y, Err(d.y, d.x, k)), Bump(a.z, st.z, Err(d.z, d.x, k)))
      case AxisY => b == Cell(Bump(a.x, st.x, Err(d.x, d.y, k)), a.y + st.y, Bump(a.z, st.z, Err(d.z, d.y, k)))
      case AxisZ => b == Cell(Bump(a.x, st.x, Err(d.x, d.z, k)), Bump(a.y, st.y, Err(d.y, d.z, k)), a.z + st.z)
  {
    var d := CellDelta(s, e);
    match DrivingAxis(d)
    case AxisX => StepsAdvance(d.y, d.x, k); StepsAdvance(d.z, d.x, k);
    case AxisY => StepsAdvance(d.x, d.y, k); StepsAdvance(d.z, d.y, k);
    case AxisZ => StepsAdvance(d.x, d.z, k); StepsAdvance(d.y, d.z, k);
  }

  /** The traversal has max(|dx|,|dy|,|dz|) + 1 cells, from s to e. */
  lemma {:induction false} SupercoverEndpoints(s: Cell, e: Cell)
    ensures var path := SupercoverPath(s, e);
      var d := CellDelta(s, e);
      |path| == Major(d) + 1
      && path[0] == s && path[|path| - 1] == e
  {
    var d := CellDelta(s, e);
    var path := SupercoverPath(s, e);
    StepsStart(d.x, d.y); StepsStart(d.x, d.z); StepsStart(d.y, d.x);
    StepsStart(d.y, d.z); StepsStart(d.z, d.x); StepsStart(d.z, d.y);
    assert path[0] == PathCell(s, e, 0);
    var m := Major(d);
    assert path[m] == PathCell(s, e, m);
    if m > 0 {
      match DrivingAxis(d)
      case AxisX => StepsEnd(d.y, d.x); StepsEnd(d.z, d.x);
      case AxisY => StepsEnd(d.x, d.y); StepsEnd(d.z, d.y);
      case AxisZ => StepsEnd(d.x, d.z); StepsEnd(d.y, d.z);
    }
  }

  /** Identical floored endpoints give the single cell. */
  lemma SupercoverSingleCell(s: Cell)
    ensures SupercoverPath(s, s) == [s]
  {
    SupercoverEndpoints(s, s);
  }

  /** b lies one step of `st` beyond a. */
  predicate StepsBy(a: int, b: int, st: int) {
    b == a + st
  }

  predicate StepsByAtMost(a: int, b: int, st: int) {
    b == a || b == a + st
  }

  /**
   * Between consecutive cells the driving axis moves by exactly its step and
   * each other axis by 0 or its step; every step is +1 or -1, so the path is
   * 26-connected and never repeats a cell twice in a row.
   */
  lemma {:induction false} SupercoverConnected(s: Cell, e: Cell, i: nat)
    requires i + 1 < |SupercoverPath(s, e)|
    ensures var path := SupercoverPath(s, e);
      var st := CellStep(s, e);
      var a := path[i];
      var b := path[i + 1];
      match DrivingAxis(CellDelta(s, e))
      case AxisX => StepsBy(a.x, b.x, st.x) && StepsByAtMost(a.y, b.y, st.y) && StepsByAtMost(a.z, b.z, st.z)
      case AxisY => StepsBy(a.y, b.y, st.y) && StepsByAtMost(a.x, b.x, st.x) && StepsByAtMost(a.z, b.z, st.z)
      case AxisZ => StepsBy(a.z, b.z, st.z) && StepsByAtMost(a.x, b.x, st.x) && StepsByAtMost(a.y, b.y, st.y)
    ensures var path := SupercoverPath(s, e);
      path[i] != path[i + 1]
      && -1 <= path[i + 1].x - path[i].x <= 1
      && -1 <= path[i + 1].y - path[i].y <= 1
      && -1 <= path[i + 1].z - path[i].z <= 1
  {
    var d := CellDelta(s, e);
    var path := SupercoverPath(s, e);
    assert path[i] == PathCell(s, e, i) && path[i + 1] == PathCell(s, e, i + 1);
    match DrivingAxis(d)
    case AxisX => StepsAtMostOne(d.y, d.x, i); StepsAtMostOne(d.z, d.x, i);
    case AxisY => StepsAtMostOne(d.x, d.y, i); StepsAtMostOne(d.z, d.y, i);
    case AxisZ => StepsAtMostOne(d.x, d.z, i); StepsAtMostOne(d.y, d.z, i);
  }

  /** An axis whose floored endpoints agree keeps that coordinate along the whole path. */
  lemma {:induction false} SupercoverFixedAxis(s: Cell, e: Cell, i: nat)
    requires i < |SupercoverPath(s, e)|
    ensures s.x == e.x ==> SupercoverPath(s, e)[i].x == s.x
    ensures s.y == e.y ==> SupercoverPath(s, e)[i].y == s.y
    ensures s.z == e.z ==> SupercoverPath(s, e)[i].z == s.z
  {
    var d := CellDelta(s, e);
    var m := Major(d);
    assert SupercoverPath(s, e)[i] == PathCell(s, e, i);
    StepsOfZero(m, i);
    match DrivingAxis(d)
    case AxisX =>
      assert s.x == e.x ==> m == 0 && i == 0;
    case AxisY =>
      assert s.y == e.y ==> m == 0 && i == 0;
    case AxisZ =>
      assert s.z == e.z ==> m == 0 && i == 0;
  }

  /**
   * `line_supercover(start, end)`: floors both endpoints and walks from one to
   * the other, stepping the driving axis every iteration and each minor axis
   * when its error accumulator is non-negative, pushing a copy of the point
   * each time. The same loop is `line_supercover` in game_ultility.js and
   * `Vector_Lib.line_supercover_3d` in maze.js.
   */
  method LineSupercover(start: Vec3, end: Vec3) returns (cells: seq<Cell>)
    ensures cells == SupercoverPath(FloorCell(start), FloorCell(end))
  {
    var s := FloorCell(start);
    var e := FloorCell(end);
    var d := CellDelta(e, s);
    var st := CellStep(s, e);
    var dd := Cell(2 * d.x, 2 * d.y, 2 * d.z);
    assert d == CellDelta(s, e);
    if d.x >= d.y && d.x >= d.z {
      cells := WalkX(s, e, d, st, dd);
    } else if d.y >= d.x && d.y >= d.z {
      cells := WalkY(s, e, d, st, dd);
    } else {
      cells := WalkZ(s, e, d, st, dd);
    }
  }

  /** The loop of `line_supercover` driven by the X axis. */
  method WalkX(s: Cell, e: Cell, d: Cell, st: Cell, dd: Cell) returns (cells: seq<Cell>)
    requires d == CellDelta(s, e) && st == CellStep(s, e) && dd == Cell(2 * d.x, 2 * d.y, 2 * d.z)
    requires DrivingAxis(d) == AxisX
    ensures cells == SupercoverPath(s, e)
  {
    ghost var path := SupercoverPath(s, e);
    SupercoverEndpoints(s, e);
    StepsStart(d.y, d.x); StepsStart(d.z, d.x);
    var point := s;
    cells := [point];
    ghost var k: nat := 0;
    var yd := dd.y - d.x;
    var zd := dd.z - d.x;
    while point.x != e.x
      invariant k <= d.x && |path| == d.x + 1
      invariant point == PathCell(s, e, k)
      invariant yd == Err(d.y, d.x, k) && zd == Err(d.z, d.x, k)
      invariant cells == path[..k + 1]
      decreases d.x - k
    {
      point, yd, zd := StepX(s, e, d, st, dd, point, yd, zd, k);
      cells := cells + [point];
      k := k + 1;
      assert path[k] == PathCell(s, e, k);
    }
  }

  /** One iteration of the X-driven loop: the minor axes step on a non-negative accumulator, then x steps. */
  method StepX(s: Cell, e: Cell, d: Cell, st: Cell, dd: Cell, point: Cell, yd: int, zd: int, ghost k: nat)
    returns (point': Cell, yd': int, zd': int)
    requires d == CellDelta(s, e) && st == CellStep(s, e) && dd == Cell(2 * d.x, 2 * d.y, 2 * d.z)
    requires DrivingAxis(d) == AxisX && k < d.x
    requires point == PathCell(s, e, k) && yd == Err(d.y, d.x, k) && zd == Err(d.z, d.x, k)
    ensures point' == PathCell(s, e, k + 1)
    ensures yd' == Err(d.y, d.x, k + 1) && zd' == Err(d.z, d.x, k + 1)
  {
    PathStep(s, e, k);
    StepsAdvance(d.y, d.x, k);
    StepsAdvance(d.z, d.x, k);
    point' := point;
    yd' := yd;
    zd' := zd;
    if yd' >= 0 { point' := point'.(y := point'.y + st.y); yd' := yd' - dd.x; }
    if zd' >= 0 { point' := point'.(z := point'.z + st.z); zd' := zd' - dd.x; }
    point' := point'.(x := point'.x + st.x);
    yd' := yd' + dd.y;
    zd' := zd' + dd.z;
  }

  /** The loop of `line_supercover` driven by the Y axis. */
  method WalkY(s: Cell, e: Cell, d: Cell, st: Cell, dd: Cell) returns (cells: seq<Cell>)
    requires d == CellDelta(s, e) && st == CellStep(s, e) && dd == Cell(2 * d.x, 2 * d.y, 2 * d.z)
    requires DrivingAxis(d) == AxisY
    ensures cells == SupercoverPath(s, e)
  {
    ghost var path := SupercoverPath(s, e);
    SupercoverEndpoints(s, e);
    StepsStart(d.x, d.y); StepsStart(d.z, d.y);
    var point := s;
    cells := [point];
    ghost var k: nat := 0;
    var xd := dd.x - d.y;
    var zd := dd.z - d.y;
    while point.y != e.y
      invariant k <= d.y && |path| == d.y + 1
      invariant point == PathCell(s, e, k)
      invariant xd == Err(d.x, d.y, k) && zd == Err(d.z, d.y, k)
      invariant cells == path[..k + 1]
      decreases d.y - k
    {
      point, xd, zd := StepY(s, e, d, st, dd, point, xd, zd, k);
      cells := cells + [point];
      k := k + 1;
      assert path[k] == PathCell(s, e, k);
    }
  }

  /** One iteration of the Y-driven loop: the minor axes step on a non-negative accumulator, then y steps. */
  method StepY(s: Cell, e: Cell, d: Cell, st: Cell, dd: Cell, point: Cell, xd: int, zd: int, ghost k: nat)
    returns (point': Cell, xd': int, zd': int)
    requires d == CellDelta(s, e) && st == CellStep(s, e) && dd == Cell(2 * d.x, 2 * d.y, 2 * d.z)
    requires DrivingAxis(d) == AxisY && k < d.y
    requires point == PathCell(s, e, k) && xd == Err(d.x, d.y, k) && zd == Err(d.z, d.y, k)
    ensures point' == PathCell(s, e, k + 1)
    ensures xd' == Err(d.x, d.y, k + 1) && zd' == Err(d.z, d.y, k + 1)
  {
    PathStep(s, e, k);
    StepsAdvance(d.x, d.y, k);
    StepsAdvance(d.z, d.y, k);
    point' := point;
    xd' := xd;
    zd' := zd;
    if xd' >= 0 { point' := point'.(x := point'.x + st.x); xd' := xd' - dd.y; }
    if zd' >= 0 { point' := point'.(z := point'.z + st.z); zd' := zd' - dd.y; }
    point' := point'.(y := point'.y + st.y);
    xd' := xd' + dd.x;
    zd' := zd' + dd.z;
  }

  /** The loop of `line_supercover` driven by the Z axis. */
  method WalkZ(s: Cell, e: Cell, d: Cell, st: Cell, dd: Cell) returns (cells: seq<Cell>)
    requires d == CellDelta(s, e) && st == CellStep(s, e) && dd == Cell(2 * d.x, 2 * d.y, 2 * d.z)
    requires DrivingAxis(d) == AxisZ
    ensures cells == SupercoverPath(s, e)
  {
    ghost var path := SupercoverPath(s, e);
    SupercoverEndpoints(s, e);
    StepsStart(d.x, d.z); StepsStart(d.y, d.z);
    var point := s;
    cells := [point];
    ghost var k: nat := 0;
    var xd := dd.x - d.z;
    var yd := dd.y - d.z;
    while point.z != e.z
      invariant k <= d.z && |path| == d.z + 1
      invariant point == PathCell(s, e, k)
      invariant xd == Err(d.x, d.z, k) && yd == Err(d.y, d.z, k)
      invariant cells == path[..k + 1]
      decreases d.z - k
    {
      point, xd, yd := StepZ(s, e, d, st, dd, point, xd, yd, k);
      cells := cells + [point];
      k := k + 1;
      assert path[k] == PathCell(s, e, k);
    }
  }

  /** One iteration of the Z-driven loop: the minor axes step on a non-negative accumulator, then z steps. */
  method StepZ(s: Cell, e: Cell, d: Cell, st: Cell, dd: Cell, point: Cell, xd: int, yd: int, ghost k: nat)
    returns (point': Cell, xd': int, yd': int)
    requires d == CellDelta(s, e) && st == CellStep(s, e) && dd == Cell(2 * d.x, 2 * d.y, 2 * d.z)
    requires DrivingAxis(d) == AxisZ && k < d.z
    requires point == PathCell(s, e, k) && xd == Err(d.x, d.z, k) && yd == Err(d.y, d.z, k)
    ensures point' == PathCell(s, e, k + 1)
    ensures xd' == Err(d.x, d.z, k + 1) && yd' == Err(d.y, d.z, k + 1)
  {
    PathStep(s, e, k);
    StepsAdvance(d.x, d.z, k);
    StepsAdvance(d.y, d.z, k);
    point' := point;
    xd' := xd;
    yd' := yd;
    if xd' >= 0 { point' := point'.(x := point'.x + st.x); xd' := xd' - dd.z; }
    if yd' >= 0 { point' := point'.(y := point'.y + st.y); yd' := yd' - dd.z; }
    point' := point'.(z := point'.z + st.z);
    xd' := xd' + dd.x;
    yd' := yd' + dd.y;
  }

}
