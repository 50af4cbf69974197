/** Day 14: rock paths drawn into a cave, and sand poured in from (500, 0). Each grain falls
    straight down, else down-left, else down-right, and comes to rest when all three are blocked.
    The answers count the grains at rest before the first falls out of the cave (no floor), and
    until one rests on the source itself (with a floor two rows below the lowest rock). */
module Day14 {
  import opened Util
  import opened Text
  import opened Grid

  /** A point as (x, y): x to the right, y downward. */
  type Coord = (nat, nat)

  const USIZE_MAX: nat := 0xFFFF_FFFF_FFFF_FFFF

  /** Where the sand comes from. */
  const SOURCE: Coord := (500, 0)

  // ---------------------------------------------------------------------------------------------
  // Parsing: `x,y -> x,y -> ...`, one path per line, and the source appended as a path of its own

  /** `s.split_once(',')` and two `parse::<usize>()`s, each unwrapped. */
  function ParsePoint(s: string): (r: Option<Coord>)
    ensures r.Some? ==> r.value.0 <= USIZE_MAX && r.value.1 <= USIZE_MAX
  {
    match SplitOnce(s, ",")
    case None => None
    case Some((a, b)) =>
      match (ParseNat(a), ParseNat(b))
      case (Some(x), Some(y)) => if x <= USIZE_MAX && y <= USIZE_MAX then Some((x, y)) else None
      case _ => None
  }

  /** One line: its points, split on `" -> "`. */
  function ParsePath(line: string): (r: Option<seq<Coord>>)
    ensures r.Some? ==> |r.value| >= 1
  {
    ParseEach(ParsePoint, Split(line, " -> "))
  }

  /** Every path of the file and the source as a one-point path (`.chain(["500,0"])`), or `None`
      where an `unwrap` panics. */
  function Rocks(lines: seq<string>): (r: Option<seq<seq<Coord>>>)
    ensures r.Some? ==> |r.value| == |lines| + 1
  {
    ParseEach(ParsePath, lines + ["500,0"])
  }

  lemma SourceDigits()
    ensures ParseNat("500") == Some(500) && ParseNat("0") == Some(0)
  {
    assert "500"[..2] == "50" && "50"[..1] == "5" && "5"[..0] == [];
  }

  /** The appended line `500,0` is the one-point path at the source. */
  lemma SourceParses()
    ensures ParsePath("500,0") == Some([SOURCE])
  {
    SplitOnceAbsent("500,0", " -> ");
    assert "500,0" == "500" + "," + "0";
    SplitOnceAt("500", ",", "0");
    SourceDigits();
    assert ParsePoint("500,0") == Some(SOURCE);
    assert Split("500,0", " -> ") == ["500,0"];
    ParseOne(ParsePoint, "500,0");
  }

  lemma ParseOne<T>(f: string -> Option<T>, part: string)
    requires f(part).Some?
    ensures ParseEach(f, [part]) == Some([f(part).value])
  {
    assert [part][1..] == [] && [part][0] == part;
    assert ParseEach(f, [part][1..]) == Some([]);
    assert [f(part).value] + [] == [f(part).value];
  }

  /** The parsed paths end with the source on its own, and no path is empty. */
  lemma RocksEndAtSource(lines: seq<string>)
    requires Rocks(lines).Some?
    ensures Rocks(lines).value[|lines|] == [SOURCE]
    ensures forall k | 0 <= k < |lines| + 1 :: |Rocks(lines).value[k]| >= 1
  {
    var parts := lines + ["500,0"];
    ParseEachSome(ParsePath, parts);
    assert parts[|lines|] == "500,0";
    SourceParses();
  }

  /** Every point of every path, in order. */
  function Points(paths: seq<seq<Coord>>): seq<Coord>
  {
    if paths == [] then [] else Points(paths[..|paths| - 1]) + paths[|paths| - 1]
  }

  // ---------------------------------------------------------------------------------------------
  // The bounding box

  /** The cave's extent, inclusive on both ends: the fields `x_min`, `y_min`, `x_max`, `y_max`. */
  datatype Box = Box(xMin: nat, yMin: nat, xMax: nat, yMax: nat)
  {
    predicate Valid() { xMin <= xMax && yMin <= yMax }

    /** `y_range.count()` and `x_range.count()`. */
    function Rows(): nat requires Valid() { yMax - yMin + 1 }
    function Cols(): nat requires Valid() { xMax - xMin + 1 }

    predicate Contains(x: int, y: int) { xMin <= x <= xMax && yMin <= y <= yMax }

    /** The flat position of (x, y) in the map: row `y - y_min`, column `x - x_min`. */
    function Index(x: nat, y: nat): (i: nat)
      requires Valid() && Contains(x, y)
      ensures i < Rows() * Cols()
    {
      Inside(Rows(), Cols(), y - yMin, x - xMin);
      Cols() * (y - yMin) + (x - xMin)
    }
  }

  function Xs(points: seq<Coord>): (r: seq<nat>)
    ensures |r| == |points| && forall i | 0 <= i < |points| :: r[i] == points[i].0
  {
    seq(|points|, i requires 0 <= i < |points| => points[i].0)
  }

  function Ys(points: seq<Coord>): (r: seq<nat>)
    ensures |r| == |points| && forall i | 0 <= i < |points| :: r[i] == points[i].1
  {
    seq(|points|, i requires 0 <= i < |points| => points[i].1)
  }

  /** The least element, folded from the left as `min` over the points. */
  function Least(s: seq<nat>): nat
    requires s != []
  {
    if |s| == 1 then s[0] else Min(Least(s[..|s| - 1]), s[|s| - 1])
  }

  function Greatest(s: seq<nat>): nat
    requires s != []
  {
    if |s| == 1 then s[0] else Max(Greatest(s[..|s| - 1]), s[|s| - 1])
  }

  /** `Least` is at most every element and is one of them. */
  lemma {:induction false} LeastIsLeast(s: seq<nat>)
    requires s != []
    ensures forall i | 0 <= i < |s| :: Least(s) <= s[i]
    ensures exists i | 0 <= i < |s| :: Least(s) == s[i]
    decreases |s|
  {
    if |s| > 1 {
      var init := s[..|s| - 1];
      LeastIsLeast(init);
      var j :| 0 <= j < |init| && Least(init) == init[j];
      if Least(s) == s[|s| - 1] {
        assert Least(s) == s[|s| - 1];
      } else {
        assert Least(s) == s[j];
      }
      forall i | 0 <= i < |s| ensures Least(s) <= s[i] {
        if i < |s| - 1 {
          assert s[i] == init[i];
        }
      }
    } else {
      assert Least(s) == s[0];
    }
  }

  /** `Greatest` is at least every element and is one of them. */
  lemma {:induction false} GreatestIsGreatest(s: seq<nat>)
    requires s != []
    ensures forall i | 0 <= i < |s| :: s[i] <= Greatest(s)
    ensures exists i | 0 <= i < |s| :: Greatest(s) == s[i]
    decreases |s|
  {
    if |s| > 1 {
      var init := s[..|s| - 1];
      GreatestIsGreatest(init);
      var j :| 0 <= j < |init| && Greatest(init) == init[j];
      if Greatest(s) == s[|s| - 1] {
        assert Greatest(s) == s[|s| - 1];
      } else {
        assert Greatest(s) == s[j];
      }
      forall i | 0 <= i < |s| ensures s[i] <= Greatest(s) {
        if i < |s| - 1 {
          assert s[i] == init[i];
        }
      }
    } else {
      assert Greatest(s) == s[0];
    }
  }

  /** The box `cave_from_file` computes: the least and greatest x and y over all points; with the
      floor, two more rows below and the x range widened to `500 ± y_count`. `None` where
      `500 - y_count` would go below zero (a `usize` underflow, which panics). */
  function BoxOf(points: seq<Coord>, floor: bool): (r: Option<Box>)
    requires points != []
    ensures r.Some? ==> r.value.Valid()
  {
    var xs, ys := Xs(points), Ys(points);
    var x0, x1, y0, y1 := Least(xs), Greatest(xs), Least(ys), Greatest(ys);
    LeastIsLeast(xs);
    GreatestIsGreatest(xs);
    LeastIsLeast(ys);
    GreatestIsGreatest(ys);
    if !floor then Some(Box(x0, y0, x1, y1))
    else
      var count := y1 + 2 - y0 + 1;
      if count > 500 then None else Some(Box(Min(x0, 500 - count), y0, Max(x1, 500 + count), y1 + 2))
  }

  /** The box holds every point; without the floor it is the tightest such box (each bound is some
      point's coordinate); with the floor it has two extra rows and reaches `500 ± rows` across. */
  lemma BoxCovers(points: seq<Coord>, floor: bool)
    requires points != [] && BoxOf(points, floor).Some?
    ensures forall i | 0 <= i < |points| :: BoxOf(points, floor).value.Contains(points[i].0, points[i].1)
    ensures !floor ==> exists i | 0 <= i < |points| :: points[i].0 == BoxOf(points, floor).value.xMin
    ensures !floor ==> exists i | 0 <= i < |points| :: points[i].0 == BoxOf(points, floor).value.xMax
    ensures !floor ==> exists i | 0 <= i < |points| :: points[i].1 == BoxOf(points, floor).value.yMin
    ensures !floor ==> exists i | 0 <= i < |points| :: points[i].1 == BoxOf(points, floor).value.yMax
    ensures floor ==> var b := BoxOf(points, floor).value;
                      && b.yMax == Greatest(Ys(points)) + 2 && b.yMin == Least(Ys(points))
                      && b.xMin + b.Rows() <= 500 <= b.xMax - b.Rows()
  {
    var xs, ys := Xs(points), Ys(points);
    LeastIsLeast(xs);
    GreatestIsGreatest(xs);
    LeastIsLeast(ys);
    GreatestIsGreatest(ys);
    if !floor {
      var i :| 0 <= i < |xs| && Least(xs) == xs[i];
      var j :| 0 <= j < |xs| && Greatest(xs) == xs[j];
      var k :| 0 <= k < |ys| && Least(ys) == ys[k];
      var l :| 0 <= l < |ys| && Greatest(ys) == ys[l];
      assert points[i].0 == BoxOf(points, floor).value.xMin;
      assert points[j].0 == BoxOf(points, floor).value.xMax;
      assert points[k].1 == BoxOf(points, floor).value.yMin;
      assert points[l].1 == BoxOf(points, floor).value.yMax;
    }
  }
  // ---------------------------------------------------------------------------------------------
  // Rock

  /** `v` lies between `a` and `b`, inclusive, whichever is larger. */
  predicate Between(a: nat, b: nat, v: int)
  {
    a <= v <= b || b <= v <= a
  }

  /** (x, y) is marked by drawing from `a` to `b`: the source fills every (x, y) of the x range
      crossed with the y range, which for a horizontal or vertical segment is the segment. */
  predicate OnSegment(a: Coord, b: Coord, x: int, y: int)
  {
    Between(a.0, b.0, x) && Between(a.1, b.1, y)
  }

  /** Segment `i` of a path runs from the point before (the first point itself, for `i == 0`) to
      point `i`. */
  function SegmentStart(path: seq<Coord>, i: nat): Coord
    requires i < |path|
  {
    if i == 0 then path[0] else path[i - 1]
  }

  /** (x, y) is on one of the first `n` segments of `path`. */
  ghost predicate OnPath(path: seq<Coord>, n: nat, x: int, y: int)
    requires n <= |path|
  {
    exists i | 0 <= i < n :: OnSegment(SegmentStart(path, i), path[i], x, y)
  }

  /** (x, y) is on one of the first `m` paths. */
  ghost predicate OnPaths(paths: seq<seq<Coord>>, m: nat, x: int, y: int)
    requires m <= |paths|
  {
    exists k | 0 <= k < m :: OnPath(paths[k], |paths[k]|, x, y)
  }

  lemma OnPathStep(path: seq<Coord>, n: nat, x: int, y: int)
    requires n < |path|
    ensures OnPath(path, n + 1, x, y) <==> OnPath(path, n, x, y) || OnSegment(SegmentStart(path, n), path[n], x, y)
  {
    if OnPath(path, n + 1, x, y) && !OnSegment(SegmentStart(path, n), path[n], x, y) {
      var i :| 0 <= i < n + 1 && OnSegment(SegmentStart(path, i), path[i], x, y);
      assert i < n;
    }
  }

  lemma OnPathsStep(paths: seq<seq<Coord>>, m: nat, x: int, y: int)
    requires m < |paths|
    ensures OnPaths(paths, m + 1, x, y) <==> OnPaths(paths, m, x, y) || OnPath(paths[m], |paths[m]|, x, y)
  {
    if OnPaths(paths, m + 1, x, y) && !OnPath(paths[m], |paths[m]|, x, y) {
      var k :| 0 <= k < m + 1 && OnPath(paths[k], |paths[k]|, x, y);
      assert k < m;
    }
  }

  /** The point at flat position `j` of a box's map. */
  function XAt(box: Box, j: nat): nat
    requires box.Valid()
  {
    box.xMin + j % box.Cols()
  }

  function YAt(box: Box, j: nat): nat
    requires box.Valid()
  {
    box.yMin + j / box.Cols()
  }

  /** `Index` and (`XAt`, `YAt`) are inverse: the cell of (x, y) is the only one showing (x, y). */
  lemma IndexPoint(box: Box, x: nat, y: nat)
    requires box.Valid() && box.Contains(x, y)
    ensures XAt(box, box.Index(x, y)) == x && YAt(box, box.Index(x, y)) == y
    ensures forall j: nat | XAt(box, j) == x && YAt(box, j) == y :: j == box.Index(x, y)
  {
    DivModUnique(box.Index(x, y), box.Cols(), y - box.yMin, x - box.xMin);
  }

  /** The map `cave_from_file` builds: a cell is rock when a segment of a path covers it, or, with
      the floor, when it is among the last `col_count` cells of the buffer. */
  ghost function CaveCells(paths: seq<seq<Coord>>, box: Box, floor: bool): (cells: seq<bool>)
    requires box.Valid()
    ensures |cells| == box.Rows() * box.Cols()
  {
    var n := box.Rows() * box.Cols();
    seq(n, j requires 0 <= j < n =>
             OnPaths(paths, |paths|, XAt(box, j), YAt(box, j)) || (floor && n - box.Cols() <= j))
  }

  // ---------------------------------------------------------------------------------------------
  // `sand_state` and `fall_until`

  datatype SandState = Freefall | Obstructed | OffEdge

  /** `sand_state`: outside the box, on rock, or free. */
  function SandStateOf(box: Box, cells: seq<bool>, y: nat, x: nat): (s: SandState)
    requires box.Valid() && |cells| == box.Rows() * box.Cols()
    ensures s == OffEdge <==> !box.Contains(x, y)
    ensures s == Obstructed <==> box.Contains(x, y) && cells[box.Index(x, y)]
  {
    if !box.Contains(x, y) then OffEdge
    else if cells[box.Index(x, y)] then Obstructed
    else Freefall
  }

  /** Where a grain dropped from (x, y) ends: at rest, off the edge, or at the `x -= 1` that would
      take `x` below zero (a `usize` underflow, which panics). */
  datatype Landing = Rests(x: nat, y: nat) | FallsOff | Underflow

  /** `fall_until(y, x)`: one row down at a time, straight down if free, else down-left, else
      down-right; at rest where all three are obstructed, off the edge as soon as one of the
      cells tried lies outside the box. */
  function Fall(box: Box, cells: seq<bool>, y: nat, x: nat): Landing
    requires box.Valid() && |cells| == box.Rows() * box.Cols()
    decreases if y < box.yMax then box.yMax - y else 0
  {
    var below := y + 1;
    match SandStateOf(box, cells, below, x)
    case Freefall => Fall(box, cells, below, x)
    case OffEdge => FallsOff
    case Obstructed =>
      if x == 0 then Underflow
      else
        match SandStateOf(box, cells, below, x - 1)
        case Freefall => Fall(box, cells, below, x - 1)
        case OffEdge => FallsOff
        case Obstructed =>
          match SandStateOf(box, cells, below, x + 1)
          case Freefall => Fall(box, cells, below, x + 1)
          case OffEdge => FallsOff
          case Obstructed => Rests(x, y)
  }

  /** A grain at rest has obstructed cells, all inside the box, below it, down-left and
      down-right, and rests either where it started or on a free cell. */
  lemma {:induction false} FallRests(box: Box, cells: seq<bool>, y: nat, x: nat)
    requires box.Valid() && |cells| == box.Rows() * box.Cols()
    requires Fall(box, cells, y, x).Rests?
    ensures var r := Fall(box, cells, y, x);
            && r.x >= 1 && r.y >= y
            && SandStateOf(box, cells, r.y + 1, r.x) == Obstructed
            && SandStateOf(box, cells, r.y + 1, r.x - 1) == Obstructed
            && SandStateOf(box, cells, r.y + 1, r.x + 1) == Obstructed
            && ((r.x, r.y) == (x, y) || SandStateOf(box, cells, r.y, r.x) == Freefall)
    decreases if y < box.yMax then box.yMax - y else 0
  {
    var below := y + 1;
    match SandStateOf(box, cells, below, x)
    case Freefall => FallRests(box, cells, below, x);
    case OffEdge =>
    case Obstructed =>
      if x > 0 {
        match SandStateOf(box, cells, below, x - 1)
        case Freefall => FallRests(box, cells, below, x - 1);
        case OffEdge =>
        case Obstructed =>
          match SandStateOf(box, cells, below, x + 1)
          case Freefall => FallRests(box, cells, below, x + 1);
          case OffEdge =>
          case Obstructed =>
      }
  }

  /** A grain at rest lies inside the box, when it started inside it. */
  lemma RestsInside(box: Box, cells: seq<bool>, y: nat, x: nat)
    requires box.Valid() && |cells| == box.Rows() * box.Cols() && box.Contains(x, y)
    requires Fall(box, cells, y, x).Rests?
    ensures box.Contains(Fall(box, cells, y, x).x, Fall(box, cells, y, x).y)
  {
    FallRests(box, cells, y, x);
  }

  // ---------------------------------------------------------------------------------------------
  // Pouring

  /** The free cells of a map. */
  function Free(cells: seq<bool>): nat
  {
    if cells == [] then 0 else Free(cells[..|cells| - 1]) + if cells[|cells| - 1] then 0 else 1
  }

  /** Filling a free cell leaves one free cell fewer. */
  lemma {:induction false} FreeFill(cells: seq<bool>, i: nat)
    requires i < |cells| && !cells[i]
    ensures Free(cells[i := true]) == Free(cells) - 1
    decreases |cells|
  {
    var n := |cells|;
    assert cells[i := true][..n - 1] == if i < n - 1 then cells[..n - 1][i := true] else cells[..n - 1];
    if i < n - 1 {
      FreeFill(cells[..n - 1], i);
    }
  }

  /** `part_1` from `grains` grains at rest on: each new grain from the source either falls off
      (the answer), or comes to rest and its cell becomes rock. A grain that comes to rest on a
      cell that is already rock, which can only be the source itself, would be followed by the
      same grain forever: there is no answer (`None`), as there is none for an underflow. */
  function Pour(box: Box, cells: seq<bool>, grains: nat): Option<nat>
    requires box.Valid() && |cells| == box.Rows() * box.Cols() && box.Contains(500, 0)
    decreases Free(cells)
  {
    match Fall(box, cells, 0, 500)
    case FallsOff => Some(grains)
    case Underflow => None
    case Rests(x, y) =>
      RestsInside(box, cells, 0, 500);
      var i := box.Index(x, y);
      if cells[i] then None
      else
        FreeFill(cells, i);
        Pour(box, cells[i := true], grains + 1)
  }

  /** `part_2` from `grains` grains at rest on: the grain that comes to rest at the source is the
      last, and counts; one that falls off is a panic (`None`). */
  function PourToSource(box: Box, cells: seq<bool>, grains: nat): Option<nat>
    requires box.Valid() && |cells| == box.Rows() * box.Cols() && box.Contains(500, 0)
    decreases Free(cells)
  {
    match Fall(box, cells, 0, 500)
    case FallsOff => None
    case Underflow => None
    case Rests(x, y) =>
      if (x, y) == SOURCE then Some(grains + 1)
      else
        FallRests(box, cells, 0, 500);
        var i := box.Index(x, y);
        FreeFill(cells, i);
        PourToSource(box, cells[i := true], grains + 1)
  }

  /** One step of `part_1`: a grain at rest on a free cell fills it, leaving one free cell fewer
      and the same answer to come; one at rest on rock means the loop never ends. */
  lemma PourFill(box: Box, cells: seq<bool>, grains: nat, x: nat, y: nat)
    requires box.Valid() && |cells| == box.Rows() * box.Cols() && box.Contains(500, 0)
    requires Fall(box, cells, 0, 500) == Rests(x, y)
    ensures box.Contains(x, y)
    ensures var i := box.Index(x, y);
            if cells[i] then Pour(box, cells, grains) == None
            else && Free(cells[i := true]) < Free(cells)
                 && Pour(box, cells, grains) == Pour(box, cells[i := true], grains + 1)
  {
    RestsInside(box, cells, 0, 500);
    if !cells[box.Index(x, y)] {
      FreeFill(cells, box.Index(x, y));
    }
  }

  /** One step of `part_2`: a grain at rest anywhere but the source fills a free cell, leaving one
      free cell fewer and the same answer to come. */
  lemma PourToSourceFill(box: Box, cells: seq<bool>, grains: nat, x: nat, y: nat)
    requires box.Valid() && |cells| == box.Rows() * box.Cols() && box.Contains(500, 0)
    requires Fall(box, cells, 0, 500) == Rests(x, y) && (x, y) != SOURCE
    ensures box.Contains(x, y)
    ensures var i := box.Index(x, y);
            && Free(cells[i := true]) < Free(cells)
            && PourToSource(box, cells, grains) == PourToSource(box, cells[i := true], grains + 1)
  {
    FallRests(box, cells, 0, 500);
    FreeFill(cells, box.Index(x, y));
  }

  /** Every grain counted by `part_1` filled a free cell: at most as many grains as free cells. */
  lemma {:induction false} PourBounded(box: Box, cells: seq<bool>, grains: nat)
    requires box.Valid() && |cells| == box.Rows() * box.Cols() && box.Contains(500, 0)
    requires Pour(box, cells, grains).Some?
    ensures grains <= Pour(box, cells, grains).value <= grains + Free(cells)
    decreases Free(cells)
  {
    match Fall(box, cells, 0, 500)
    case FallsOff =>
    case Underflow =>
    case Rests(x, y) =>
      RestsInside(box, cells, 0, 500);
      var i := box.Index(x, y);
      FreeFill(cells, i);
      PourBounded(box, cells[i := true], grains + 1);
  }

  /** Every grain but the last counted by `part_2` filled a free cell. */
  lemma {:induction false} PourToSourceBounded(box: Box, cells: seq<bool>, grains: nat)
    requires box.Valid() && |cells| == box.Rows() * box.Cols() && box.Contains(500, 0)
    requires PourToSource(box, cells, grains).Some?
    ensures grains < PourToSource(box, cells, grains).value <= grains + Free(cells) + 1
    decreases Free(cells)
  {
    match Fall(box, cells, 0, 500)
    case FallsOff =>
    case Underflow =>
    case Rests(x, y) =>
      if (x, y) != SOURCE {
        FallRests(box, cells, 0, 500);
        var i := box.Index(x, y);
        FreeFill(cells, i);
        PourToSourceBounded(box, cells[i := true], grains + 1);
      }
  }
  /** The bottom row of the box is rock all the way across. */
  ghost predicate FloorRow(box: Box, cells: seq<bool>)
    requires box.Valid() && |cells| == box.Rows() * box.Cols()
  {
    forall x: nat | box.xMin <= x <= box.xMax :: cells[box.Index(x, box.yMax)]
  }

  /** Above a floor, in a box wide enough that a grain moving one column per row cannot reach its
      sides, every grain comes to rest. */
  lemma {:induction false} FloorCatches(box: Box, cells: seq<bool>, y: nat, x: nat)
    requires box.Valid() && |cells| == box.Rows() * box.Cols() && FloorRow(box, cells)
    requires box.yMin <= y < box.yMax
    requires box.xMin + (box.yMax - y) <= x && x + (box.yMax - y) <= box.xMax
    ensures Fall(box, cells, y, x).Rests?
    decreases box.yMax - y
  {
    var below := y + 1;
    match SandStateOf(box, cells, below, x)
    case Freefall =>
      assert below < box.yMax;
      FloorCatches(box, cells, below, x);
    case OffEdge =>
    case Obstructed =>
      match SandStateOf(box, cells, below, x - 1)
      case Freefall =>
        assert below < box.yMax;
        FloorCatches(box, cells, below, x - 1);
      case OffEdge =>
      case Obstructed =>
        match SandStateOf(box, cells, below, x + 1)
        case Freefall =>
          assert below < box.yMax;
          FloorCatches(box, cells, below, x + 1);
        case OffEdge =>
        case Obstructed =>
  }

  /** With the floor, `part_2` always has an answer: no grain falls off. */
  lemma {:induction false} PourToSourceAnswers(box: Box, cells: seq<bool>, grains: nat)
    requires box.Valid() && |cells| == box.Rows() * box.Cols() && box.Contains(500, 0)
    requires FloorRow(box, cells) && box.yMin == 0 && 0 < box.yMax
    requires box.xMin + box.yMax <= 500 && 500 + box.yMax <= box.xMax
    ensures PourToSource(box, cells, grains).Some?
    decreases Free(cells)
  {
    FloorCatches(box, cells, 0, 500);
    var r := Fall(box, cells, 0, 500);
    if (r.x, r.y) != SOURCE {
      FallRests(box, cells, 0, 500);
      var i := box.Index(r.x, r.y);
      FreeFill(cells, i);
      var next := cells[i := true];
      assert FloorRow(box, next) by {
        forall x: nat | box.xMin <= x <= box.xMax ensures next[box.Index(x, box.yMax)] {
          assert cells[box.Index(x, box.yMax)];
        }
      }
      PourToSourceAnswers(box, next, grains + 1);
    }
  }

  // ---------------------------------------------------------------------------------------------
  // The cave `cave_from_file` builds

  /** Point `i` of path `k` is among all the points. */
  lemma {:induction false} PointsOf(paths: seq<seq<Coord>>, k: nat, i: nat)
    requires k < |paths| && i < |paths[k]|
    ensures paths[k][i] in Points(paths)
    decreases |paths|
  {
    var init := paths[..|paths| - 1];
    if k < |paths| - 1 {
      assert init[k] == paths[k];
      PointsOf(init, k, i);
    } else {
      assert Points(paths) == Points(init) + paths[k];
      assert paths[k][i] == Points(paths)[|Points(init)| + i];
    }
  }

  /** Every one of all the points is a point of some path. */
  lemma {:induction false} PointsFrom(paths: seq<seq<Coord>>, m: nat)
    requires m < |Points(paths)|
    ensures exists k, i | 0 <= k < |paths| && 0 <= i < |paths[k]| :: Points(paths)[m] == paths[k][i]
    decreases |paths|
  {
    var init := paths[..|paths| - 1];
    var last := paths[|paths| - 1];
    assert Points(paths) == Points(init) + last;
    if m < |Points(init)| {
      PointsFrom(init, m);
      var k, i :| 0 <= k < |init| && 0 <= i < |init[k]| && Points(init)[m] == init[k][i];
      assert paths[k] == init[k];
    } else {
      assert Points(paths)[m] == paths[|paths| - 1][m - |Points(init)|];
    }
  }

  /** Every parsed coordinate fits in a `usize`. */
  lemma RocksFit(lines: seq<string>, k: nat, i: nat)
    requires Rocks(lines).Some? && k < |Rocks(lines).value| && i < |Rocks(lines).value[k]|
    ensures Rocks(lines).value[k][i].0 <= USIZE_MAX && Rocks(lines).value[k][i].1 <= USIZE_MAX
  {
    var parts := lines + ["500,0"];
    ParseEachSome(ParsePath, parts);
    var pieces := Split(parts[k], " -> ");
    ParseEachSome(ParsePoint, pieces);
  }

  /** What the parsed paths give `cave_from_file` to work with: the source among the points,
      no empty path, coordinates that fit in a `usize`, and a box holding the source and every
      point. */
  lemma CaveSetup(lines: seq<string>, floor: bool)
    requires Rocks(lines).Some?
    ensures var paths := Rocks(lines).value;
            && SOURCE in Points(paths)
            && (forall k | 0 <= k < |paths| :: |paths[k]| >= 1)
            && (forall m | 0 <= m < |Points(paths)| ::
                  Points(paths)[m].0 <= USIZE_MAX && Points(paths)[m].1 <= USIZE_MAX)
            && (BoxOf(Points(paths), floor).Some? ==>
                  var box := BoxOf(Points(paths), floor).value;
                  && box.Contains(500, 0)
                  && forall k, i | 0 <= k < |paths| && 0 <= i < |paths[k]| ::
                       box.Contains(paths[k][i].0, paths[k][i].1))
  {
    var paths := Rocks(lines).value;
    RocksEndAtSource(lines);
    PointsOf(paths, |lines|, 0);
    forall m | 0 <= m < |Points(paths)|
      ensures Points(paths)[m].0 <= USIZE_MAX && Points(paths)[m].1 <= USIZE_MAX
    {
      PointsFrom(paths, m);
      var k, i :| 0 <= k < |paths| && 0 <= i < |paths[k]| && Points(paths)[m] == paths[k][i];
      RocksFit(lines, k, i);
    }
    if BoxOf(Points(paths), floor).Some? {
      BoxCovers(Points(paths), floor);
      forall k, i | 0 <= k < |paths| && 0 <= i < |paths[k]|
        ensures BoxOf(Points(paths), floor).value.Contains(paths[k][i].0, paths[k][i].1)
      {
        PointsOf(paths, k, i);
      }
    }
  }

  /** The box and the map `cave_from_file` builds, or `None` where it panics. */
  ghost function CaveOf(lines: seq<string>, floor: bool): (r: Option<(Box, seq<bool>)>)
    ensures r.Some? ==> r.value.0.Valid() && r.value.0.Contains(500, 0)
    ensures r.Some? ==> |r.value.1| == r.value.0.Rows() * r.value.0.Cols()
  {
    match Rocks(lines)
    case None => None
    case Some(paths) =>
      CaveSetup(lines, floor);
      match BoxOf(Points(paths), floor)
      case None => None
      case Some(box) => Some((box, CaveCells(paths, box, floor)))
  }

  /** `part_1`'s answer for a file. */
  ghost function SandAtRest(lines: seq<string>): Option<nat>
  {
    match CaveOf(lines, false)
    case None => None
    case Some((box, cells)) => Pour(box, cells, 0)
  }

  /** `part_2`'s answer for a file. */
  ghost function SandToSource(lines: seq<string>): Option<nat>
  {
    match CaveOf(lines, true)
    case None => None
    case Some((box, cells)) => PourToSource(box, cells, 0)
  }

  /** With the floor, a box around points that include the source starts at row 0 and is wide
      enough for any grain from the source. */
  lemma FloorBox(points: seq<Coord>)
    requires SOURCE in points && BoxOf(points, true).Some?
    ensures var box := BoxOf(points, true).value;
            && box.yMin == 0 && 0 < box.yMax
            && box.xMin + box.yMax <= 500 && 500 + box.yMax <= box.xMax
  {
    BoxCovers(points, true);
    LeastIsLeast(Ys(points));
    var m :| 0 <= m < |points| && points[m] == SOURCE;
    assert Ys(points)[m] == 0;
  }

  /** With the floor, the map's last row is rock. */
  lemma FloorCells(paths: seq<seq<Coord>>, box: Box)
    requires box.Valid()
    ensures FloorRow(box, CaveCells(paths, box, true))
  {
    var cells := CaveCells(paths, box, true);
    var rows, cols := box.Rows(), box.Cols();
    MulPred(cols, rows);
    forall x: nat | box.xMin <= x <= box.xMax ensures cells[box.Index(x, box.yMax)] {
      assert box.Index(x, box.yMax) == cols * (rows - 1) + (x - box.xMin);
    }
  }

  /** With the floor, the cave `cave_from_file` builds has a floor row, starts at row 0 and is
      wide enough for any grain from the source. */
  lemma FloorOfCave(lines: seq<string>)
    requires CaveOf(lines, true).Some?
    ensures var (box, cells) := CaveOf(lines, true).value;
            && FloorRow(box, cells) && box.yMin == 0 && 0 < box.yMax
            && box.xMin + box.yMax <= 500 && 500 + box.yMax <= box.xMax
  {
    var paths := Rocks(lines).value;
    CaveSetup(lines, true);
    var box := BoxOf(Points(paths), true).value;
    FloorBox(Points(paths));
    FloorCells(paths, box);
  }

  /** `part_2` has an answer exactly when the cave can be built: with the floor no grain falls
      off. */
  lemma Part2Answers(lines: seq<string>)
    ensures SandToSource(lines).Some? <==> CaveOf(lines, true).Some?
  {
    if CaveOf(lines, true).Some? {
      Part2Built(lines);
    }
  }

  lemma Part2Built(lines: seq<string>)
    requires CaveOf(lines, true).Some?
    ensures SandToSource(lines).Some?
  {
    FloorOfCave(lines);
    var (box, cells) := CaveOf(lines, true).value;
    PourToSourceAnswers(box, cells, 0);
  }
  // ---------------------------------------------------------------------------------------------
  // The `Cave` struct and the imperative code over it

  /** `Cave`: the map, set in place as rock is drawn and grains come to rest, and its box. */
  class Cave {
    const grid: Vec2d<bool>
    const xMin: nat
    const yMin: nat
    const xMax: nat
    const yMax: nat

    function Bounds(): Box
    {
      Box(xMin, yMin, xMax, yMax)
    }

    ghost predicate Valid()
      reads this, grid
    {
      && Bounds().Valid() && Bounds().Contains(500, 0)
      && grid.Valid() && grid.rowCount == Bounds().Rows() && grid.colCount == Bounds().Cols()
    }

    /** The struct literal at the end of `cave_from_file`. */
    constructor (grid: Vec2d<bool>, box: Box)
      requires box.Valid() && box.Contains(500, 0)
      requires grid.Valid() && grid.rowCount == box.Rows() && grid.colCount == box.Cols()
      ensures Valid() && this.grid == grid && Bounds() == box
    {
      this.grid := grid;
      xMin, yMin, xMax, yMax := box.xMin, box.yMin, box.xMax, box.yMax;
    }

    /** The grain's cell `(x, y)` becomes sand (`true`, like rock) and no other cell changes. */
    method Settle(x: nat, y: nat)
      requires Valid() && Bounds().Contains(x, y)
      modifies grid
      ensures Valid() && grid.vec == old(grid.vec)[Bounds().Index(x, y) := true]
    {
      grid.Set(y - yMin, x - xMin, true);
    }

    /** One segment of a rock path: every cell of the rectangle between `a` and `b` becomes rock
        (a straight line in the puzzle's input) and no other cell changes. */
    method DrawSegment(a: Coord, b: Coord)
      requires Valid() && Bounds().Contains(a.0, a.1) && Bounds().Contains(b.0, b.1)
      modifies grid
      ensures Valid() && |grid.vec| == |old(grid.vec)|
      ensures forall j | 0 <= j < |grid.vec| ::
                grid.vec[j] == (old(grid.vec[j]) || OnSegment(a, b, XAt(Bounds(), j), YAt(Bounds(), j)))
    {
      var box := Bounds();
      var xLo, xHi := if a.0 <= b.0 then a.0 else b.0, if a.0 <= b.0 then b.0 else a.0;
      var yLo, yHi := if a.1 <= b.1 then a.1 else b.1, if a.1 <= b.1 then b.1 else a.1;
      ghost var before := grid.vec;
      var x := xLo;
      while x <= xHi
        invariant xLo <= x <= xHi + 1
        invariant Valid() && |grid.vec| == |before|
        invariant forall j | 0 <= j < |grid.vec| ::
                    grid.vec[j] == (before[j] || (xLo <= XAt(box, j) < x && yLo <= YAt(box, j) <= yHi))
      {
        var y := yLo;
        while y <= yHi
          invariant yLo <= y <= yHi + 1
          invariant Valid() && |grid.vec| == |before|
          invariant forall j | 0 <= j < |grid.vec| ::
                      grid.vec[j] == (|| before[j]
                                     || (xLo <= XAt(box, j) < x && yLo <= YAt(box, j) <= yHi)
                                     || (XAt(box, j) == x && yLo <= YAt(box, j) < y))
        {
          IndexPoint(box, x, y);
          grid.Set(y - yMin, x - xMin, true);
          y := y + 1;
        }
        x := x + 1;
      }
    }

    /** The drawing loop of `cave_from_file`: every cell on a segment of some path becomes rock,
        and no other cell changes. */
    method DrawPaths(paths: seq<seq<Coord>>)
      requires Valid()
      requires forall k | 0 <= k < |paths| :: |paths[k]| >= 1
      requires forall k, i | 0 <= k < |paths| && 0 <= i < |paths[k]| ::
                 Bounds().Contains(paths[k][i].0, paths[k][i].1)
      modifies grid
      ensures Valid() && |grid.vec| == |old(grid.vec)|
      ensures forall j | 0 <= j < |grid.vec| ::
                grid.vec[j] == (old(grid.vec[j]) || OnPaths(paths, |paths|, XAt(Bounds(), j), YAt(Bounds(), j)))
    {
      var box := Bounds();
      ghost var before := grid.vec;
      for k := 0 to |paths|
        invariant Valid() && |grid.vec| == |before|
        invariant forall j | 0 <= j < |grid.vec| ::
                    grid.vec[j] == (before[j] || OnPaths(paths, k, XAt(box, j), YAt(box, j)))
      {
        var segments := paths[k];
        var start := segments[0];
        for i := 0 to |segments|
          invariant Valid() && |grid.vec| == |before|
          invariant start == segments[if i == 0 then 0 else i - 1]
          invariant forall j | 0 <= j < |grid.vec| ::
                      grid.vec[j] == (|| before[j] || OnPaths(paths, k, XAt(box, j), YAt(box, j))
                                     || OnPath(segments, i, XAt(box, j), YAt(box, j)))
        {
          DrawSegment(start, segments[i]);
          forall j | 0 <= j < |grid.vec|
            ensures OnPath(segments, i + 1, XAt(box, j), YAt(box, j)) <==>
                    (|| OnPath(segments, i, XAt(box, j), YAt(box, j))
                     || OnSegment(start, segments[i], XAt(box, j), YAt(box, j)))
          {
            OnPathStep(segments, i, XAt(box, j), YAt(box, j));
          }
          start := segments[i];
        }
        forall j | 0 <= j < |grid.vec|
          ensures OnPaths(paths, k + 1, XAt(box, j), YAt(box, j)) <==>
                  (|| OnPaths(paths, k, XAt(box, j), YAt(box, j))
                   || OnPath(segments, |segments|, XAt(box, j), YAt(box, j)))
        {
          OnPathsStep(paths, k, XAt(box, j), YAt(box, j));
        }
      }
    }

    /** `fall_until`: the loop that drops a grain row by row ends where `Fall` says. */
    method FallUntil(y0: nat, x0: nat) returns (r: Landing)
      requires Valid()
      ensures r == Fall(Bounds(), grid.vec, y0, x0)
    {
      var box := Bounds();
      var y, x := y0, x0;
      while true
        invariant Fall(box, grid.vec, y, x) == Fall(box, grid.vec, y0, x0)
        decreases if y < yMax then yMax - y else 0
      {
        y := y + 1;
        var state := SandStateOf(box, grid.vec, y, x);
        if state == Freefall { continue; }
        if state == OffEdge { return FallsOff; }
        if x == 0 { return Underflow; }
        x := x - 1;
        state := SandStateOf(box, grid.vec, y, x);
        if state == Freefall { continue; }
        if state == OffEdge { return FallsOff; }
        x := x + 2;
        state := SandStateOf(box, grid.vec, y, x);
        if state == Freefall { continue; }
        if state == OffEdge { return FallsOff; }
        return Rests(x - 1, y - 1);
      }
    }
  }
  /** The ranges `cave_from_file` widens as it parses each point, from the empty `usize::MAX..=0`:
      the least and greatest coordinates of all the points. */
  method PointRange(points: seq<Coord>) returns (xLo: nat, xHi: nat, yLo: nat, yHi: nat)
    requires points != []
    requires forall m | 0 <= m < |points| :: points[m].0 <= USIZE_MAX && points[m].1 <= USIZE_MAX
    ensures xLo == Least(Xs(points)) && xHi == Greatest(Xs(points))
    ensures yLo == Least(Ys(points)) && yHi == Greatest(Ys(points))
  {
    xLo, xHi, yLo, yHi := USIZE_MAX, 0, USIZE_MAX, 0;
    for i := 0 to |points|
      invariant i == 0 ==> xLo == USIZE_MAX && xHi == 0 && yLo == USIZE_MAX && yHi == 0
      invariant i > 0 ==> && xLo == Least(Xs(points[..i])) && xHi == Greatest(Xs(points[..i]))
                          && yLo == Least(Ys(points[..i])) && yHi == Greatest(Ys(points[..i]))
    {
      xLo, xHi := Min(xLo, points[i].0), Max(xHi, points[i].0);
      yLo, yHi := Min(yLo, points[i].1), Max(yHi, points[i].1);
      assert Xs(points[..i + 1])[..i] == Xs(points[..i]);
      assert Ys(points[..i + 1])[..i] == Ys(points[..i]);
    }
    assert points[..|points|] == points;
  }

  /** `cave_from_file`: the box around every point (and the source), widened for the floor, with
      the floor row and every rock path drawn; `None` where the source panics. */
  method CaveFromFile(lines: seq<string>, floor: bool) returns (cave: Option<Cave>)
    ensures cave.None? <==> CaveOf(lines, floor).None?
    ensures cave.Some? ==> && fresh(cave.value) && fresh(cave.value.grid) && cave.value.Valid()
                           && cave.value.Bounds() == CaveOf(lines, floor).value.0
                           && cave.value.grid.vec == CaveOf(lines, floor).value.1
  {
    var rocks := Rocks(lines);
    if rocks.None? {
      return None;
    }
    var paths := rocks.value;
    CaveSetup(lines, floor);
    var found := CaveBox(Points(paths), floor);
    if found.None? {
      return None;
    }
    var box := found.value;
    var rows, cols := box.Rows(), box.Cols();
    var vec := EmptyMap(rows, cols, floor);
    var grid := new Vec2d(vec, rows, cols);
    var c := new Cave(grid, box);
    c.DrawPaths(paths);
    assert grid.vec == CaveCells(paths, box, floor);
    cave := Some(c);
  }

  /** The box `cave_from_file` settles on: the ranges of all the points, with two more rows and
      a wider span for the floor; `None` where `500 - y_count` would underflow. */
  method CaveBox(points: seq<Coord>, floor: bool) returns (box: Option<Box>)
    requires points != []
    requires forall m | 0 <= m < |points| :: points[m].0 <= USIZE_MAX && points[m].1 <= USIZE_MAX
    ensures box == BoxOf(points, floor)
  {
    var xLo, xHi, yLo, yHi := PointRange(points);
    if floor {
      yHi := yHi + 2;
      var yCount := yHi - yLo + 1;
      if yCount > 500 {
        return None;
      }
      xLo, xHi := Min(xLo, 500 - yCount), Max(xHi, 500 + yCount);
    }
    box := Some(Box(xLo, yLo, xHi, yHi));
  }

  /** The map before any rock is drawn: all free, except the last row when there is a floor. */
  method EmptyMap(rows: nat, cols: nat, floor: bool) returns (vec: seq<bool>)
    requires rows >= 1
    ensures |vec| == rows * cols
    ensures forall j | 0 <= j < |vec| :: vec[j] == (floor && rows * cols - cols <= j)
  {
    MulMono(cols, 1, rows);
    vec := seq(rows * cols, _ => false);
    if floor {
      for i := rows * cols - cols to rows * cols
        invariant |vec| == rows * cols
        invariant forall j | 0 <= j < |vec| :: vec[j] == (rows * cols - cols <= j < i)
      {
        vec := vec[i := true];
      }
    }
  }

  /** `part_1`: grains are dropped until one falls off; the answer is how many came to rest. The
      source would loop forever once a grain rests on a cell that is already rock (`None`). */
  method Part1(lines: seq<string>) returns (answer: Option<nat>)
    ensures answer == SandAtRest(lines)
  {
    var built := CaveFromFile(lines, false);
    if built.None? {
      return None;
    }
    var cave := built.value;
    var box := cave.Bounds();
    ghost var cells := cave.grid.vec;
    var i: nat := 0;
    while true
      invariant cave.Valid() && |cave.grid.vec| == box.Rows() * box.Cols()
      invariant Pour(box, cave.grid.vec, i) == Pour(box, cells, 0)
      decreases Free(cave.grid.vec)
    {
      var landing := cave.FallUntil(0, 500);
      match landing
      case FallsOff => return Some(i);
      case Underflow => return None;
      case Rests(x, y) =>
        PourFill(box, cave.grid.vec, i, x, y);
        var k := box.Index(x, y);
        if cave.grid.vec[k] {
          return None;
        }
        cave.Settle(x, y);
        i := i + 1;
    }
  }

  /** `part_2`: with the floor, grains are dropped until one comes to rest at the source, which
      counts too. */
  method Part2(lines: seq<string>) returns (answer: Option<nat>)
    ensures answer == SandToSource(lines)
  {
    var built := CaveFromFile(lines, true);
    if built.None? {
      return None;
    }
    var cave := built.value;
    var box := cave.Bounds();
    ghost var cells := cave.grid.vec;
    var i: nat := 0;
    while true
      invariant cave.Valid() && |cave.grid.vec| == box.Rows() * box.Cols()
      invariant PourToSource(box, cave.grid.vec, i) == PourToSource(box, cells, 0)
      decreases Free(cave.grid.vec)
    {
      var landing := cave.FallUntil(0, 500);
      match landing
      case FallsOff => return None;
      case Underflow => return None;
      case Rests(x, y) =>
        if (x, y) == (500, 0) {
          return Some(i + 1);
        }
        PourToSourceFill(box, cave.grid.vec, i, x, y);
        cave.Settle(x, y);
        i := i + 1;
    }
  }
}
