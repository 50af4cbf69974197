/** Day 12: a heightmap of letters `a` to `z`, with the start `S` at elevation `a` and the end `E`
    at elevation `z`. One may step to a side neighbour at most one letter higher; the answers are
    fewest-step counts, from the start to the end and from any `a` square to the end. */
module Day12 {
  import opened Util
  import opened Grid

  /** A square of the map as (row, column). */
  type Square = (nat, nat)

  // ---------------------------------------------------------------------------------------------
  // `map_from_file` and `heightmap_from_file`

  /** The letters of the file, its height and its width (`map_from_file`), or `None` where the
      source panics: an empty file (`get(0).unwrap()`), or lines whose total length is not the
      line count times the first line's length (`Vec2d::new` asserts it). */
  datatype Shape = Shape(cells: seq<char>, rows: nat, cols: nat)

  function MapInput(lines: seq<string>): (r: Option<Shape>)
    ensures r.Some? ==> |r.value.cells| == r.value.rows * r.value.cols && r.value.rows == |lines| > 0
  {
    if lines == [] || |Flatten(lines)| != |lines| * |lines[0]| then None
    else Some(Shape(Flatten(lines), |lines|, |lines[0]|))
  }

  /** `map_from_file`: the letters in a grid as wide as the first line. */
  method MapFromFile(lines: seq<string>) returns (grid: Option<Vec2d<char>>)
    ensures grid.None? <==> MapInput(lines).None?
    ensures grid.Some? ==> fresh(grid.value) && grid.value.Valid()
    ensures grid.Some? ==> grid.value.vec == MapInput(lines).value.cells
                           && grid.value.rowCount == MapInput(lines).value.rows
                           && grid.value.colCount == MapInput(lines).value.cols
  {
    match MapInput(lines)
    case None =>
      grid := None;
    case Some(shape) =>
      var g := new Vec2d(shape.cells, shape.rows, shape.cols);
      grid := Some(g);
  }

  /** The elevation a letter stands for: the start is at `a` and the end at `z`. */
  function Elevation(c: char): char
  {
    if c == 'S' then 'a' else if c == 'E' then 'z' else c
  }

  /** The letters with the start and end replaced by their elevations. */
  function Elevations(cells: seq<char>): seq<char>
  {
    seq(|cells|, k requires 0 <= k < |cells| => Elevation(cells[k]))
  }

  /** Only `S` and `E` change, and neither is left. */
  lemma ElevationsMeaning(cells: seq<char>)
    ensures |Elevations(cells)| == |cells|
    ensures forall k | 0 <= k < |cells| ::
              Elevations(cells)[k] == (if cells[k] == 'S' then 'a' else if cells[k] == 'E' then 'z' else cells[k])
    ensures 'S' !in Elevations(cells) && 'E' !in Elevations(cells)
    ensures Elevations(Elevations(cells)) == Elevations(cells)
  {
  }

  /** The last flat position before `n` that holds `c`: where the row-major scan last meets it. */
  function LastBefore(cells: seq<char>, c: char, n: nat): Option<nat>
    requires n <= |cells|
  {
    if n == 0 then None else if cells[n - 1] == c then Some(n - 1) else LastBefore(cells, c, n - 1)
  }

  /** `LastBefore` finds an occurrence of `c` with none after it, or reports that there is none. */
  lemma {:induction false} LastBeforeMeaning(cells: seq<char>, c: char, n: nat)
    requires n <= |cells|
    ensures LastBefore(cells, c, n).Some? ==>
              var k := LastBefore(cells, c, n).value;
              k < n && cells[k] == c && forall k' | k < k' < n :: cells[k'] != c
    ensures LastBefore(cells, c, n).None? <==> c !in cells[..n]
    decreases n
  {
    if n > 0 {
      LastBeforeMeaning(cells, c, n - 1);
      assert cells[..n] == cells[..n - 1] + [cells[n - 1]];
    }
  }

  /** Flat position `k` of a grid `cols` wide as a square; `(0, 0)`, the source's initial value,
      when there is none. */
  function SquareAt(k: Option<nat>, cols: nat): Square
  {
    if k.None? || cols == 0 then (0, 0) else (k.value / cols, k.value % cols)
  }

  /** Square `(r, c)` of a grid `cols` wide is flat position `cols * r + c`. */
  lemma SquareAtFlat(cols: nat, r: nat, c: nat)
    requires c < cols
    ensures SquareAt(Some(cols * r + c), cols) == (r, c)
  {
    DivModUnique(cols * r + c, cols, r, c);
  }

  /** The scan has rewritten the first `n` flat positions of `cells` and left the rest alone. */
  ghost predicate RewrittenBefore(v: seq<char>, cells: seq<char>, n: nat)
  {
    |v| == |cells| && n <= |cells| && forall k | 0 <= k < |cells| :: v[k] == if k < n then Elevation(cells[k]) else cells[k]
  }

  /** `heightmap_from_file`'s scan: every `S` becomes `a` and every `E` becomes `z`, in place, and
      the last `S` and the last `E` met in row-major order are the start and the end. */
  method Normalise(grid: Vec2d<char>) returns (start: Square, end: Square)
    requires grid.Valid()
    modifies grid
    ensures grid.Valid() && grid.vec == Elevations(old(grid.vec))
    ensures start == SquareAt(LastBefore(old(grid.vec), 'S', |grid.vec|), grid.colCount)
    ensures end == SquareAt(LastBefore(old(grid.vec), 'E', |grid.vec|), grid.colCount)
  {
    ghost var cells := grid.vec;
    start, end := (0, 0), (0, 0);
    for i := 0 to grid.rowCount
      invariant grid.Valid() && RewrittenBefore(grid.vec, cells, grid.colCount * i)
      invariant start == SquareAt(LastBefore(cells, 'S', grid.colCount * i), grid.colCount)
      invariant end == SquareAt(LastBefore(cells, 'E', grid.colCount * i), grid.colCount)
    {
      start, end := NormaliseRow(grid, i, cells, start, end);
    }
    assert grid.colCount * grid.rowCount == |cells|;
    RewrittenAll(grid.vec, cells);
  }

  /** A scan that has rewritten every position has rewritten the whole grid. */
  lemma RewrittenAll(v: seq<char>, cells: seq<char>)
    requires RewrittenBefore(v, cells, |cells|)
    ensures v == Elevations(cells)
  {
  }

  /** Row `i` of the scan. */
  method NormaliseRow(grid: Vec2d<char>, i: nat, ghost cells: seq<char>, start0: Square, end0: Square)
    returns (start: Square, end: Square)
    requires grid.Valid() && i < grid.rowCount && RewrittenBefore(grid.vec, cells, grid.colCount * i)
    requires start0 == SquareAt(LastBefore(cells, 'S', grid.colCount * i), grid.colCount)
    requires end0 == SquareAt(LastBefore(cells, 'E', grid.colCount * i), grid.colCount)
    modifies grid
    ensures grid.Valid() && RewrittenBefore(grid.vec, cells, grid.colCount * (i + 1))
    ensures start == SquareAt(LastBefore(cells, 'S', grid.colCount * (i + 1)), grid.colCount)
    ensures end == SquareAt(LastBefore(cells, 'E', grid.colCount * (i + 1)), grid.colCount)
  {
    var cols := grid.colCount;
    start, end := start0, end0;
    MulPred(cols, i + 1);
    MulMono(cols, i + 1, grid.rowCount);
    for j := 0 to cols
      invariant grid.Valid() && RewrittenBefore(grid.vec, cells, cols * i + j)
      invariant start == SquareAt(LastBefore(cells, 'S', cols * i + j), cols)
      invariant end == SquareAt(LastBefore(cells, 'E', cols * i + j), cols)
    {
      Inside(grid.rowCount, cols, i, j);
      SquareAtFlat(cols, i, j);
      var spot := grid.At(i, j);
      if spot == 'S' {
        start := (i, j);
        grid.Set(i, j, 'a');
      } else if spot == 'E' {
        end := (i, j);
        grid.Set(i, j, 'z');
      }
    }
  }

  /** A heightmap: the elevations in a grid, with the start and end squares. */
  datatype Heightmap = Heightmap(elevations: Vec2d<char>, start: Square, end: Square)

  /** `heightmap_from_file`, or `None` where `map_from_file` panics. */
  method HeightmapFromFile(lines: seq<string>) returns (h: Option<Heightmap>)
    ensures h.None? <==> MapInput(lines).None?
    ensures h.Some? ==> fresh(h.value.elevations) && h.value.elevations.Valid()
    ensures h.Some? ==> var shape := MapInput(lines).value;
              && h.value.elevations.vec == Elevations(shape.cells)
              && h.value.elevations.rowCount == shape.rows && h.value.elevations.colCount == shape.cols
              && h.value.start == SquareAt(LastBefore(shape.cells, 'S', |shape.cells|), shape.cols)
              && h.value.end == SquareAt(LastBefore(shape.cells, 'E', |shape.cells|), shape.cols)
  {
    var grid := MapFromFile(lines);
    if grid.None? {
      return None;
    }
    var start, end := Normalise(grid.value);
    h := Some(Heightmap(grid.value, start, end));
  }

  /** Scanning past positions without `c` leaves the last `c` where it was. */
  lemma {:induction false} LastBeforeSkip(cells: seq<char>, c: char, m: nat, n: nat)
    requires m <= n <= |cells| && c !in cells[m..n]
    ensures LastBefore(cells, c, n) == LastBefore(cells, c, m)
    decreases n
  {
    if m < n {
      assert cells[n - 1] in cells[m..n];
      assert cells[m..n - 1] <= cells[m..n];
      LastBeforeSkip(cells, c, m, n - 1);
    }
  }

  lemma ElevationsAppend(a: seq<char>, b: seq<char>)
    ensures Elevations(a + b) == Elevations(a) + Elevations(b)
  {
  }

  /** The letters of the example map, row by row. */
  function ExampleLetters(): string
  {
    "Sabqponm" + "abcryxxl" + "accszExk" + "acctuvwj" + "abdefghi"
  }

  /** `test_heightmap_from_file`: the elevations of the example map, five rows of eight. */
  lemma ExampleElevations()
    ensures Elevations(ExampleLetters()) == "aabqponm" + "abcryxxl" + "accszzxk" + "acctuvwj" + "abdefghi"
  {
    ElevationsAppend("Sabqponm" + "abcryxxl" + "accszExk" + "acctuvwj", "abdefghi");
    ElevationsAppend("Sabqponm" + "abcryxxl" + "accszExk", "acctuvwj");
    ElevationsAppend("Sabqponm" + "abcryxxl", "accszExk");
    ElevationsAppend("Sabqponm", "abcryxxl");
    assert Elevations("abdefghi") == "abdefghi";
    assert Elevations("acctuvwj") == "acctuvwj";
    assert Elevations("abcryxxl") == "abcryxxl";
    assert Elevations("Sabqponm") == "aabqponm";
    assert Elevations("accszExk") == "accszzxk";
  }

  /** `test_heightmap_from_file`: the start is at `(0, 0)`. */
  lemma ExampleStart()
    ensures SquareAt(LastBefore(ExampleLetters(), 'S', 40), 8) == (0, 0)
  {
    var cells := ExampleLetters();
    assert cells[1..40] == "abqponm" + "abcryxxl" + "accszExk" + "acctuvwj" + "abdefghi";
    LastBeforeSkip(cells, 'S', 1, 40);
    SquareAtFlat(8, 0, 0);
  }

  /** `test_heightmap_from_file`: the end is at `(2, 5)`. */
  lemma ExampleEnd()
    ensures SquareAt(LastBefore(ExampleLetters(), 'E', 40), 8) == (2, 5)
  {
    var cells := ExampleLetters();
    assert cells[21] == 'E';
    assert cells[22..40] == "xk" + "acctuvwj" + "abdefghi";
    LastBeforeSkip(cells, 'E', 22, 40);
    SquareAtFlat(8, 2, 5);
  }
  // ---------------------------------------------------------------------------------------------
  // `paths_from_heightmap`

  /** Square `a` lies on a map of `rows` by `cols`. */
  predicate OnMap(rows: nat, cols: nat, a: Square)
  {
    a.0 < rows && a.1 < cols
  }

  /** Every square of the map. */
  function Squares(rows: nat, cols: nat): set<Square>
  {
    set r: nat, c: nat | r < rows && c < cols :: (r, c)
  }

  /** Squares `a` and `b` share a side. */
  predicate Adjacent(a: Square, b: Square)
  {
    (a.0 == b.0 && (a.1 + 1 == b.1 || b.1 + 1 == a.1)) || (a.1 == b.1 && (a.0 + 1 == b.0 || b.0 + 1 == a.0))
  }

  /** The elevation of square `a`. */
  function HeightAt(cells: seq<char>, rows: nat, cols: nat, a: Square): char
    requires |cells| == rows * cols && OnMap(rows, cols, a)
  {
    Inside(rows, cols, a.0, a.1);
    cells[cols * a.0 + a.1]
  }

  /** One may step from `me` to `them`: a side neighbour on the map at most one letter higher. */
  predicate Climbable(cells: seq<char>, rows: nat, cols: nat, me: Square, them: Square)
    requires |cells| == rows * cols
  {
    OnMap(rows, cols, me) && OnMap(rows, cols, them) && Adjacent(me, them)
    && HeightAt(cells, rows, cols, them) as int <= HeightAt(cells, rows, cols, me) as int + 1
  }

  /** Every step one may take on the map. */
  ghost function Climbs(cells: seq<char>, rows: nat, cols: nat): set<(Square, Square)>
    requires |cells| == rows * cols
  {
    set r1: nat, c1: nat, r2: nat, c2: nat
      | r1 < rows && c1 < cols && r2 < rows && c2 < cols && Climbable(cells, rows, cols, (r1, c1), (r2, c2))
      :: ((r1, c1), (r2, c2))
  }

  lemma ClimbsMeaning(cells: seq<char>, rows: nat, cols: nat, me: Square, them: Square)
    requires |cells| == rows * cols
    ensures (me, them) in Climbs(cells, rows, cols) <==> Climbable(cells, rows, cols, me, them)
  {
    if Climbable(cells, rows, cols, me, them) {
      var r1, c1, r2, c2 := me.0, me.1, them.0, them.1;
      assert ((r1, c1), (r2, c2)) in Climbs(cells, rows, cols);
    }
  }

  /** Every edge turned round. */
  function Flip(edges: set<(Square, Square)>): set<(Square, Square)>
  {
    set e | e in edges :: (e.1, e.0)
  }

  lemma FlipMeaning(edges: set<(Square, Square)>, a: Square, b: Square)
    ensures (a, b) in Flip(edges) <==> (b, a) in edges
    ensures Flip(Flip(edges)) == edges
  {
    assert (b, a) in edges ==> (b, a).1 == a && (b, a).0 == b;
    forall e | e in edges ensures e in Flip(Flip(edges)) {
      assert (e.1, e.0) in Flip(edges);
    }
  }

  /** The edge the graph gets for a step from `me` to `them`: with `reversed_edges` it points
      back from `them` to `me`. */
  function Oriented(me: Square, them: Square, reversed: bool): (Square, Square)
  {
    if reversed then (them, me) else (me, them)
  }

  /** The square an edge steps to, whichever way it points. */
  function Them(e: (Square, Square), reversed: bool): Square
  {
    if reversed then e.0 else e.1
  }

  /** The edges for the squares before flat position `n`, in row-major order, are in place. */
  ghost predicate EdgesBefore(edges: set<(Square, Square)>, cells: seq<char>, rows: nat, cols: nat, reversed: bool, n: nat)
    requires |cells| == rows * cols
  {
    forall me: Square, them: Square ::
      Oriented(me, them, reversed) in edges <==> Climbable(cells, rows, cols, me, them) && cols * me.0 + me.1 < n
  }

  /** A graph: the squares and the steps between them (every step weighs 1). */
  datatype Graph = Graph(nodes: set<Square>, edges: set<(Square, Square)>)

  /** `paths_from_heightmap`: a node per square, and an edge per climbable step, pointing back
      when `reversed` is set. `me + 1` is computed on a byte, so no letter may be 255. */
  method PathsFromHeightmap(h: Heightmap, reversed: bool) returns (paths: Graph)
    requires h.elevations.Valid()
    requires forall k | 0 <= k < |h.elevations.vec| :: h.elevations.vec[k] as int < 255
    ensures paths.nodes == Squares(h.elevations.rowCount, h.elevations.colCount)
    ensures paths.edges == if reversed then Flip(Climbs(h.elevations.vec, h.elevations.rowCount, h.elevations.colCount))
                           else Climbs(h.elevations.vec, h.elevations.rowCount, h.elevations.colCount)
  {
    var grid := h.elevations;
    var rows, cols := grid.rowCount, grid.colCount;
    var nodes: set<Square> := {};
    for i := 0 to rows
      invariant nodes == set r: nat, c: nat | r < i && c < cols :: (r, c)
    {
      for j := 0 to cols
        invariant nodes == (set r: nat, c: nat | r < i && c < cols :: (r, c)) + (set c: nat | c < j :: (i, c))
      {
        nodes := nodes + {(i, j)};
      }
    }
    var edges: set<(Square, Square)> := {};
    for i := 0 to rows
      invariant EdgesBefore(edges, grid.vec, rows, cols, reversed, cols * i)
    {
      for j := 0 to cols
        invariant EdgesBefore(edges, grid.vec, rows, cols, reversed, cols * i + j)
      {
        edges := AddClimbs(grid, i, j, reversed, edges);
      }
      MulPred(cols, i + 1);
    }
    paths := Graph(nodes, edges);
    EdgesComplete(edges, grid.vec, rows, cols, reversed);
  }

  /** Once every square is done, the edges are all the steps, oriented. */
  lemma EdgesComplete(edges: set<(Square, Square)>, cells: seq<char>, rows: nat, cols: nat, reversed: bool)
    requires |cells| == rows * cols && EdgesBefore(edges, cells, rows, cols, reversed, cols * rows)
    ensures edges == if reversed then Flip(Climbs(cells, rows, cols)) else Climbs(cells, rows, cols)
  {
    var all := Climbs(cells, rows, cols);
    var target := if reversed then Flip(all) else all;
    forall e ensures e in edges <==> e in target {
      var me, them := if reversed then e.1 else e.0, if reversed then e.0 else e.1;
      assert Oriented(me, them, reversed) == e;
      ClimbsMeaning(cells, rows, cols, me, them);
      FlipMeaning(all, e.0, e.1);
      if OnMap(rows, cols, me) {
        Inside(rows, cols, me.0, me.1);
      }
    }
  }

  /** One square's turn: an edge for each of the four neighbours it may step to. */
  method AddClimbs(grid: Vec2d<char>, i: nat, j: nat, reversed: bool, edges0: set<(Square, Square)>)
    returns (edges: set<(Square, Square)>)
    requires grid.Valid() && i < grid.rowCount && j < grid.colCount
    requires forall k | 0 <= k < |grid.vec| :: grid.vec[k] as int < 255
    requires EdgesBefore(edges0, grid.vec, grid.rowCount, grid.colCount, reversed, grid.colCount * i + j)
    ensures EdgesBefore(edges, grid.vec, grid.rowCount, grid.colCount, reversed, grid.colCount * i + j + 1)
  {
    var rows, cols := grid.rowCount, grid.colCount;
    var me := (i, j);
    Inside(rows, cols, i, j);
    edges := edges0;
    ghost var e1, e2, e3 := edges0, edges0, edges0;
    if i > 0 {
      edges := Link(grid, me, (i - 1, j), reversed, edges0, edges);
    }
    e1 := edges;
    if i < rows - 1 {
      edges := Link(grid, me, (i + 1, j), reversed, edges0, edges);
    }
    e2 := edges;
    if j > 0 {
      edges := Link(grid, me, (i, j - 1), reversed, edges0, edges);
    }
    e3 := edges;
    if j < cols - 1 {
      edges := Link(grid, me, (i, j + 1), reversed, edges0, edges);
    }
    assert e1 <= e2 <= e3 <= edges;
    forall b: Square | Climbable(grid.vec, rows, cols, me, b) ensures Oriented(me, b, reversed) in edges {
      NeighbourCases(rows, cols, me, b);
    }
    EdgesStep(edges0, edges, grid.vec, rows, cols, reversed, me);
  }

  /** Adding the steps from the square at flat position `n` extends the edges to `n + 1`. */
  lemma EdgesStep(edges0: set<(Square, Square)>, edges: set<(Square, Square)>, cells: seq<char>, rows: nat, cols: nat,
                  reversed: bool, me: Square)
    requires |cells| == rows * cols && OnMap(rows, cols, me)
    requires EdgesBefore(edges0, cells, rows, cols, reversed, cols * me.0 + me.1)
    requires Grown(edges0, edges, cells, rows, cols, reversed, me)
    requires forall b: Square | Climbable(cells, rows, cols, me, b) :: Oriented(me, b, reversed) in edges
    ensures EdgesBefore(edges, cells, rows, cols, reversed, cols * me.0 + me.1 + 1)
  {
    forall a: Square, b: Square
      ensures Oriented(a, b, reversed) in edges <==> Climbable(cells, rows, cols, a, b) && cols * a.0 + a.1 < cols * me.0 + me.1 + 1
    {
      if a.1 < cols {
        FlatInjective(cols, a.0, a.1, me.0, me.1);
      }
    }
  }

  /** A side neighbour on the map is above, below, left or right, and the map goes on that way. */
  lemma NeighbourCases(rows: nat, cols: nat, me: Square, b: Square)
    requires OnMap(rows, cols, me) && OnMap(rows, cols, b) && Adjacent(me, b)
    ensures (me.0 > 0 && b == (me.0 - 1, me.1)) || (me.0 < rows - 1 && b == (me.0 + 1, me.1))
         || (me.1 > 0 && b == (me.0, me.1 - 1)) || (me.1 < cols - 1 && b == (me.0, me.1 + 1))
  {
  }

  /** `edges` holds `base` and, besides, only steps from `me` that one may take. */
  ghost predicate Grown(base: set<(Square, Square)>, edges: set<(Square, Square)>, cells: seq<char>, rows: nat, cols: nat,
                        reversed: bool, me: Square)
    requires |cells| == rows * cols
  {
    base <= edges
    && forall e | e in edges ::
         e in base || (Climbable(cells, rows, cols, me, Them(e, reversed)) && e == Oriented(me, Them(e, reversed), reversed))
  }

  /** The edge for one step from `me` to the neighbour `them`, if one may take it. */
  method Link(grid: Vec2d<char>, me: Square, them: Square, reversed: bool, ghost base: set<(Square, Square)>,
              edges0: set<(Square, Square)>)
    returns (edges: set<(Square, Square)>)
    requires grid.Valid() && OnMap(grid.rowCount, grid.colCount, me) && OnMap(grid.rowCount, grid.colCount, them)
    requires Adjacent(me, them)
    requires HeightAt(grid.vec, grid.rowCount, grid.colCount, me) as int < 255
    requires Grown(base, edges0, grid.vec, grid.rowCount, grid.colCount, reversed, me)
    ensures Grown(base, edges, grid.vec, grid.rowCount, grid.colCount, reversed, me)
    ensures edges == if Climbable(grid.vec, grid.rowCount, grid.colCount, me, them)
                     then edges0 + {Oriented(me, them, reversed)} else edges0
  {
    Inside(grid.rowCount, grid.colCount, me.0, me.1);
    Inside(grid.rowCount, grid.colCount, them.0, them.1);
    var height := grid.At(me.0, me.1);
    var other := grid.At(them.0, them.1);
    edges := edges0;
    if other as int <= height as int + 1 {
      if reversed {
        edges := edges + {(them, me)};
      } else {
        edges := edges + {(me, them)};
      }
    }
  }
  // ---------------------------------------------------------------------------------------------
  // Fewest steps: `dijkstra` with every edge weighing 1

  /** The squares one step along `edges` from a square of `from`. */
  function Successors(edges: set<(Square, Square)>, from: set<Square>): set<Square>
  {
    set e | e in edges && e.0 in from :: e.1
  }

  /** The squares at most `k` steps from a square of `from`. */
  function Within(edges: set<(Square, Square)>, from: set<Square>, k: nat): set<Square>
  {
    if k == 0 then from else Within(edges, from, k - 1) + Successors(edges, Within(edges, from, k - 1))
  }

  /** `p` walks along `edges`, one edge per step. */
  ghost predicate IsWalk(edges: set<(Square, Square)>, p: seq<Square>)
  {
    |p| > 0 && forall n | 0 <= n < |p| - 1 :: (p[n], p[n + 1]) in edges
  }

  /** A walk of `k` steps ends within `k` steps of where it starts. */
  lemma {:induction false} WalkWithin(edges: set<(Square, Square)>, p: seq<Square>)
    requires IsWalk(edges, p)
    ensures p[|p| - 1] in Within(edges, {p[0]}, |p| - 1)
    decreases |p|
  {
    if |p| > 1 {
      var q := p[..|p| - 1];
      assert IsWalk(edges, q) by {
        forall n | 0 <= n < |q| - 1 ensures (q[n], q[n + 1]) in edges {
          assert (p[n], p[n + 1]) in edges;
        }
      }
      WalkWithin(edges, q);
      var e := (p[|p| - 2], p[|p| - 1]);
      assert e in edges && e.0 in Within(edges, {p[0]}, |p| - 2);
      assert p[|p| - 1] in Successors(edges, Within(edges, {p[0]}, |p| - 2));
    }
  }

  /** Every square within `k` steps of `s` ends a walk from `s` of at most `k` steps. */
  lemma {:induction false} WithinWalk(edges: set<(Square, Square)>, s: Square, t: Square, k: nat) returns (p: seq<Square>)
    requires t in Within(edges, {s}, k)
    ensures IsWalk(edges, p) && p[0] == s && p[|p| - 1] == t && |p| <= k + 1
    decreases k
  {
    if k == 0 {
      p := [s];
    } else if t in Within(edges, {s}, k - 1) {
      p := WithinWalk(edges, s, t, k - 1);
    } else {
      var e :| e in edges && e.0 in Within(edges, {s}, k - 1) && e.1 == t;
      var q := WithinWalk(edges, s, e.0, k - 1);
      p := q + [t];
      forall n | 0 <= n < |p| - 1 ensures (p[n], p[n + 1]) in edges {
        if n < |q| - 1 {
          assert p[n] == q[n] && p[n + 1] == q[n + 1];
        } else {
          assert p[n] == e.0 && p[n + 1] == t;
        }
      }
    }
  }

  /** Allowing more steps never loses a square. */
  lemma {:induction false} WithinGrows(edges: set<(Square, Square)>, from: set<Square>, j: nat, k: nat)
    requires j <= k
    ensures Within(edges, from, j) <= Within(edges, from, k)
    decreases k
  {
    if j < k {
      WithinGrows(edges, from, j, k - 1);
    }
  }

  /** Once a step adds nothing, no later step does. */
  lemma WithinStable(edges: set<(Square, Square)>, from: set<Square>, k: nat, j: nat)
    requires Within(edges, from, k + 1) == Within(edges, from, k) && k <= j
    ensures Within(edges, from, j) == Within(edges, from, k)
  {
    var w := Within(edges, from, k);
    forall e | e in edges && e.0 in w ensures e.1 in w {
      assert e.1 in Successors(edges, w);
    }
    var i := k;
    while i < j
      invariant k <= i <= j && Within(edges, from, i) == w
    {
      StableStep(edges, from, i, w);
      i := i + 1;
    }
  }

  /** No edge leads out of `w`. */
  ghost predicate Closed(edges: set<(Square, Square)>, w: set<Square>)
  {
    forall e | e in edges && e.0 in w :: e.1 in w
  }

  /** One more step from a set `w` that no edge leads out of reaches `w` again. */
  lemma StableStep(edges: set<(Square, Square)>, from: set<Square>, i: nat, w: set<Square>)
    requires Within(edges, from, i) == w && Closed(edges, w)
    ensures Within(edges, from, i + 1) == w
  {
  }

  /** The squares some edge leads to. */
  function Heads(edges: set<(Square, Square)>): set<Square>
  {
    set e | e in edges :: e.1
  }

  /** Every square within reach is `s` or the head of an edge. */
  lemma {:induction false} WithinHeads(edges: set<(Square, Square)>, s: Square, k: nat)
    ensures Within(edges, {s}, k) <= {s} + Heads(edges)
    decreases k
  {
    if k > 0 {
      WithinHeads(edges, s, k - 1);
    }
  }

  /** No square of `targets` lies within fewer than `k` steps of `s`. */
  ghost predicate Missed(edges: set<(Square, Square)>, s: Square, targets: set<Square>, k: nat)
  {
    forall j: nat | j < k :: Within(edges, {s}, j) * targets == {}
  }

  /** `k` is the fewest steps from `s` to a square of `targets`. */
  ghost predicate Fewest(edges: set<(Square, Square)>, s: Square, targets: set<Square>, k: nat)
  {
    Within(edges, {s}, k) * targets != {} && Missed(edges, s, targets, k)
  }

  /** No number of steps leads from `s` to a square of `targets`. */
  ghost predicate Unreachable(edges: set<(Square, Square)>, s: Square, targets: set<Square>)
  {
    forall k: nat :: Within(edges, {s}, k) * targets == {}
  }

  /** The fewest steps are the length of a shortest walk: there is a walk that long, and no
      walk to a target is shorter. */
  lemma FewestIsShortest(edges: set<(Square, Square)>, s: Square, targets: set<Square>, k: nat, p: seq<Square>)
    requires Fewest(edges, s, targets, k)
    requires IsWalk(edges, p) && p[0] == s && p[|p| - 1] in targets
    ensures |p| - 1 >= k
  {
    WalkWithin(edges, p);
    assert p[|p| - 1] in Within(edges, {s}, |p| - 1) * targets;
  }

  lemma FewestIsReached(edges: set<(Square, Square)>, s: Square, targets: set<Square>, k: nat) returns (p: seq<Square>)
    requires Fewest(edges, s, targets, k)
    ensures IsWalk(edges, p) && p[0] == s && p[|p| - 1] in targets && |p| - 1 == k
  {
    var t :| t in Within(edges, {s}, k) * targets;
    p := WithinWalk(edges, s, t, k);
    assert p[|p| - 1] in targets;
    FewestIsShortest(edges, s, targets, k, p);
    assert |p| - 1 <= k;
  }

  /** Unreachable means that no walk from `s` ends at a target. */
  lemma UnreachableNoWalk(edges: set<(Square, Square)>, s: Square, targets: set<Square>, p: seq<Square>)
    requires Unreachable(edges, s, targets) && IsWalk(edges, p) && p[0] == s
    ensures p[|p| - 1] !in targets
  {
    WalkWithin(edges, p);
    assert {p[0]} == {s};
    assert p[|p| - 1] !in Within(edges, {s}, |p| - 1) * targets;
  }

  /** Missing the targets once more extends `Missed` by a step. */
  lemma MissedStep(edges: set<(Square, Square)>, s: Square, targets: set<Square>, k: nat)
    requires Missed(edges, s, targets, k) && Within(edges, {s}, k) * targets == {}
    ensures Missed(edges, s, targets, k + 1)
  {
  }

  /** A step that adds nothing, with no target reached so far, leaves every target unreachable. */
  lemma StableUnreachable(edges: set<(Square, Square)>, s: Square, targets: set<Square>, k: nat)
    requires Within(edges, {s}, k + 1) == Within(edges, {s}, k)
    requires Missed(edges, s, targets, k + 1)
    ensures Unreachable(edges, s, targets)
  {
    forall j: nat ensures Within(edges, {s}, j) * targets == {} {
      if j > k {
        WithinStable(edges, {s}, k, j);
      }
    }
  }

  /** Growing a subset of `universe` leaves fewer squares of `universe` outside it. */
  lemma Narrows(universe: set<Square>, reached: set<Square>, next: set<Square>)
    requires reached <= next <= universe && next != reached
    ensures |universe - next| < |universe - reached|
  {
    var added :| added in next && added !in reached;
    var gained := next - reached;
    assert universe - reached == (universe - next) + gained;
    assert (universe - next) * gained == {};
    assert added in gained;
  }

  /** The fewest steps from `s` to `targets`, widening the reached squares one step at a time;
      `None` once a step reaches nothing new. */
  method FewestSteps(edges: set<(Square, Square)>, s: Square, targets: set<Square>) returns (steps: Option<nat>)
    ensures steps.Some? ==> Fewest(edges, s, targets, steps.value)
    ensures steps.None? ==> Unreachable(edges, s, targets)
  {
    var reached := {s};
    var k := 0;
    ghost var universe := {s} + Heads(edges);
    WithinHeads(edges, s, 0);
    while reached * targets == {}
      invariant reached == Within(edges, {s}, k) && reached <= universe
      invariant Missed(edges, s, targets, k)
      decreases |universe - reached|
    {
      var next := reached + Successors(edges, reached);
      if next == reached {
        MissedStep(edges, s, targets, k);
        StableUnreachable(edges, s, targets, k);
        return None;
      }
      WithinHeads(edges, s, k + 1);
      Narrows(universe, reached, next);
      MissedStep(edges, s, targets, k);
      reached, k := next, k + 1;
    }
    return Some(k);
  }
  // ---------------------------------------------------------------------------------------------
  // `part_1` and `part_2`

  /** Where the scan leaves `start` and `end`: the last `S` and the last `E`, else `(0, 0)`. */
  function StartOf(shape: Shape): Square
  {
    SquareAt(LastBefore(shape.cells, 'S', |shape.cells|), shape.cols)
  }

  function EndOf(shape: Shape): Square
  {
    SquareAt(LastBefore(shape.cells, 'E', |shape.cells|), shape.cols)
  }

  /** Every step one may take on the map, once `S` and `E` stand for their elevations. */
  ghost function ClimbsOf(shape: Shape): set<(Square, Square)>
    requires |shape.cells| == shape.rows * shape.cols
  {
    Climbs(Elevations(shape.cells), shape.rows, shape.cols)
  }

  /** The squares at elevation `a`, where `part_2` may begin. */
  function LowSquares(cells: seq<char>, rows: nat, cols: nat): set<Square>
    requires |cells| == rows * cols
  {
    set a | a in Squares(rows, cols) && HeightAt(cells, rows, cols, a) == 'a'
  }

  /** The squares of the map at elevation `a`, once `S` stands for `a`. */
  function LowOf(shape: Shape): set<Square>
    requires |shape.cells| == shape.rows * shape.cols
  {
    LowSquares(Elevations(shape.cells), shape.rows, shape.cols)
  }

  /** No letter of the file is the byte 255, on which `me + 1` would overflow. */
  ghost predicate NoTopByte(lines: seq<string>)
  {
    forall k | 0 <= k < |Flatten(lines)| :: Flatten(lines)[k] as int < 255
  }

  /** The elevations keep every letter below 255. */
  lemma ElevationsBelow(cells: seq<char>)
    requires forall k | 0 <= k < |cells| :: cells[k] as int < 255
    ensures forall k | 0 <= k < |Elevations(cells)| :: Elevations(cells)[k] as int < 255
  {
  }

  /** `part_1`: the fewest steps from the start to the end; `None` where the source panics, on a
      malformed map or when the end cannot be reached (`unwrap` of a missing distance). */
  method Part1(lines: seq<string>) returns (steps: Option<nat>)
    requires NoTopByte(lines)
    ensures MapInput(lines).None? ==> steps.None?
    ensures MapInput(lines).Some? ==>
              var shape := MapInput(lines).value;
              && (steps.Some? ==> Fewest(ClimbsOf(shape), StartOf(shape), {EndOf(shape)}, steps.value))
              && (steps.None? ==> Unreachable(ClimbsOf(shape), StartOf(shape), {EndOf(shape)}))
  {
    var h := HeightmapFromFile(lines);
    if h.None? {
      return None;
    }
    ElevationsBelow(MapInput(lines).value.cells);
    var paths := PathsFromHeightmap(h.value, false);
    steps := FewestSteps(paths.edges, h.value.start, {h.value.end});
  }

  /** `part_2`: the fewest steps from any square at elevation `a` to the end, found by walking the
      reversed steps out from the end; `None` where the source panics (a malformed map, or no `a`
      square from which the end can be reached: `min` of nothing). */
  method Part2(lines: seq<string>) returns (steps: Option<nat>)
    requires NoTopByte(lines)
    ensures MapInput(lines).None? ==> steps.None?
    ensures MapInput(lines).Some? ==>
              var shape := MapInput(lines).value;
              && (steps.Some? ==> Fewest(Flip(ClimbsOf(shape)), EndOf(shape), LowOf(shape), steps.value))
              && (steps.None? ==> Unreachable(Flip(ClimbsOf(shape)), EndOf(shape), LowOf(shape)))
  {
    var h := HeightmapFromFile(lines);
    if h.None? {
      return None;
    }
    ElevationsBelow(MapInput(lines).value.cells);
    var paths := PathsFromHeightmap(h.value, true);
    var grid := h.value.elevations;
    var low := set a | a in paths.nodes && HeightAt(grid.vec, grid.rowCount, grid.colCount, a) == 'a';
    assert low == LowSquares(grid.vec, grid.rowCount, grid.colCount);
    steps := FewestSteps(paths.edges, h.value.end, low);
  }

  /** A walk read backwards walks the turned-round edges. */
  lemma FlipWalk(edges: set<(Square, Square)>, p: seq<Square>)
    requires IsWalk(edges, p)
    ensures IsWalk(Flip(edges), Backwards(p))
  {
    var q := Backwards(p);
    forall n | 0 <= n < |q| - 1 ensures (q[n], q[n + 1]) in Flip(edges) {
      var e := (p[|p| - 2 - n], p[|p| - 1 - n]);
      assert e in edges;
      assert (e.1, e.0) in Flip(edges);
    }
  }

  /** `p` read from its end. */
  function Backwards(p: seq<Square>): (q: seq<Square>)
    ensures |q| == |p| && forall n | 0 <= n < |p| :: q[n] == p[|p| - 1 - n]
  {
    seq(|p|, n requires 0 <= n < |p| => p[|p| - 1 - n])
  }

  /** When the start itself lies among the targets of the reversed search, that search finds a
      way, and one no longer than the forward one. */
  lemma ReversedNoFarther(edges: set<(Square, Square)>, s: Square, t: Square, low: set<Square>, k: nat)
    requires s in low && Fewest(edges, s, {t}, k)
    ensures !Unreachable(Flip(edges), t, low)
    ensures forall k': nat :: Fewest(Flip(edges), t, low, k') ==> k' <= k
  {
    var p := FewestIsReached(edges, s, {t}, k);
    FlipWalk(edges, p);
    var q := Backwards(p);
    WalkWithin(Flip(edges), q);
    assert {q[0]} == {t};
    assert s in Within(Flip(edges), {t}, k) * low;
  }

  /** A map with a start has it at elevation `a`. */
  lemma StartIsLow(shape: Shape)
    requires |shape.cells| == shape.rows * shape.cols && 'S' in shape.cells
    ensures StartOf(shape) in LowOf(shape)
  {
    var cells, rows, cols := shape.cells, shape.rows, shape.cols;
    LastBeforeMeaning(cells, 'S', |cells|);
    assert cells[..|cells|] == cells;
    var k := LastBefore(cells, 'S', |cells|).value;
    assert cols > 0;
    var a := (k / cols, k % cols);
    assert StartOf(shape) == a;
    assert cols * a.0 + a.1 == k;
    assert a.0 < rows by {
      if a.0 >= rows {
        MulMono(cols, rows, a.0);
      }
    }
    assert a in Squares(rows, cols) by {
      var r, c := a.0, a.1;
      assert (r, c) in Squares(rows, cols);
    }
  }

  /** `part_2` never exceeds `part_1` on a map with a start: the start is one of the squares
      `part_2` may begin from. */
  lemma Part2AtMostPart1(shape: Shape, k: nat)
    requires |shape.cells| == shape.rows * shape.cols && 'S' in shape.cells
    requires Fewest(ClimbsOf(shape), StartOf(shape), {EndOf(shape)}, k)
    ensures !Unreachable(Flip(ClimbsOf(shape)), EndOf(shape), LowOf(shape))
    ensures forall k': nat | Fewest(Flip(ClimbsOf(shape)), EndOf(shape), LowOf(shape), k') :: k' <= k
  {
    StartIsLow(shape);
    ReversedNoFarther(ClimbsOf(shape), StartOf(shape), EndOf(shape), LowOf(shape), k);
  }
}
