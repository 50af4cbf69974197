/** Day 8: a grid of tree heights. A tree is visible when it is taller than every tree between it
    and some edge; its scenic score multiplies how far it sees in the four directions. */
module Day08 {
  import opened Util
  import opened Grid
  import opened Text

  // ---------------------------------------------------------------------------------------------
  // One row: `find_min_heights`

  /** The tallest of the first `i` trees of `row`, or -1 before the first tree: the running `max`
      of `find_min_heights`. */
  function MaxBefore(row: seq<int>, i: nat): int
    requires i <= |row|
  {
    if i == 0 then -1 else Max(MaxBefore(row, i - 1), row[i - 1])
  }

  /** `MaxBefore` bounds the trees before `i` and is one of them (or -1 when none is taller). */
  lemma {:induction false} MaxBeforeMeaning(row: seq<int>, i: nat)
    requires i <= |row|
    ensures forall k | 0 <= k < i :: row[k] <= MaxBefore(row, i)
    ensures MaxBefore(row, i) == -1 || exists k | 0 <= k < i :: row[k] == MaxBefore(row, i)
    decreases i
  {
    if i > 0 {
      MaxBeforeMeaning(row, i - 1);
    }
  }

  /** The running maximum never decreases. */
  lemma {:induction false} MaxBeforeMonotone(row: seq<int>, i: nat, j: nat)
    requires i <= j <= |row|
    ensures MaxBefore(row, i) <= MaxBefore(row, j)
    decreases j
  {
    if i < j {
      MaxBeforeMonotone(row, i, j - 1);
    }
  }

  /** A tree of non-negative height is taller than the running maximum exactly when it is taller
      than every tree before it: visible from that side. */
  lemma TallerThanBefore(row: seq<int>, i: nat)
    requires i < |row| && row[i] >= 0
    ensures row[i] > MaxBefore(row, i) <==> forall k | 0 <= k < i :: row[k] < row[i]
  {
    MaxBeforeMeaning(row, i);
  }

  /** `find_min_heights`: for each position, the tallest tree before it (-1 at the start). */
  method FindMinHeights(row: seq<int>) returns (heights: seq<int>)
    ensures |heights| == |row|
    ensures forall i | 0 <= i < |row| :: heights[i] == MaxBefore(row, i)
  {
    var max := -1;
    heights := [];
    for i := 0 to |row|
      invariant |heights| == i && max == MaxBefore(row, i)
      invariant forall k | 0 <= k < i :: heights[k] == MaxBefore(row, k)
    {
      var cur := max;
      max := Max(max, row[i]);
      heights := heights + [cur];
    }
  }

  /** The output of `find_min_heights` is non-decreasing. */
  lemma MinHeightsSorted(row: seq<int>, heights: seq<int>)
    requires |heights| == |row| && forall i | 0 <= i < |row| :: heights[i] == MaxBefore(row, i)
    ensures forall i, j | 0 <= i <= j < |heights| :: heights[i] <= heights[j]
  {
    forall i, j | 0 <= i <= j < |heights| ensures heights[i] <= heights[j] {
      MaxBeforeMonotone(row, i, j);
    }
  }

  /** The test: [2, 5, 5, 1, 2] gives [-1, 2, 5, 5, 5]. */
  lemma ExampleMinHeights(heights: seq<int>)
    requires |heights| == 5 && forall i | 0 <= i < 5 :: heights[i] == MaxBefore([2, 5, 5, 1, 2], i)
    ensures heights == [-1, 2, 5, 5, 5]
  {
    var row := [2, 5, 5, 1, 2];
    assert MaxBefore(row, 1) == 2;
    assert MaxBefore(row, 2) == 5;
    assert MaxBefore(row, 4) == 5;
  }

  // ---------------------------------------------------------------------------------------------
  // One row: `find_directional_scores`

  /** Walking left from `j`: the first position that is the edge (position 0) or holds a tree at
      least `h` tall. */
  function Blocker(row: seq<int>, h: int, j: nat): (b: nat)
    requires j < |row|
    ensures b <= j
  {
    if j == 0 || row[j] >= h then j else Blocker(row, h, j - 1)
  }

  /** The blocker is the edge or tall enough, and every tree passed on the way is lower. */
  lemma {:induction false} BlockerMeaning(row: seq<int>, h: int, j: nat)
    requires j < |row|
    ensures Blocker(row, h, j) == 0 || row[Blocker(row, h, j)] >= h
    ensures forall k | Blocker(row, h, j) < k <= j :: row[k] < h
    decreases j
  {
    if j > 0 && row[j] < h {
      BlockerMeaning(row, h, j - 1);
    }
  }

  /** Stretches of lower trees can be skipped. */
  lemma {:induction false} BlockerSkip(row: seq<int>, h: int, j: nat, b: nat)
    requires b <= j < |row| && forall k | b < k <= j :: row[k] < h
    ensures Blocker(row, h, j) == Blocker(row, h, b)
    decreases j
  {
    if b < j {
      BlockerSkip(row, h, j - 1, b);
    }
  }

  /** How many trees tree `i` sees to its left: up to and including the first one at least as
      tall, or up to the edge. The first tree sees none. */
  function Distance(row: seq<int>, i: nat): nat
    requires i < |row|
  {
    if i == 0 then 0 else i - Blocker(row, row[i], i - 1)
  }

  /** For `i >= 1` the distance lies in `1..i`, every tree it passes over is lower than tree `i`, and
      it stops at the edge or at a tree at least as tall. */
  lemma DistanceMeaning(row: seq<int>, i: nat)
    requires 0 < i < |row|
    ensures 1 <= Distance(row, i) <= i
    ensures forall k | i - Distance(row, i) < k < i :: row[k] < row[i]
    ensures Distance(row, i) == i || row[i - Distance(row, i)] >= row[i]
  {
    BlockerMeaning(row, row[i], i - 1);
  }

  /** One jump of `find_directional_scores`: from a tree `j` lower than tree `i`, tree `i`'s
      blocker is found by continuing from tree `j`'s blocker, `Distance(row, j)` to the left. */
  lemma JumpOver(row: seq<int>, i: nat, j: nat)
    requires 0 < j < i < |row| && row[j] < row[i]
    ensures 1 <= Distance(row, j) <= j
    ensures Blocker(row, row[i], j) == Blocker(row, row[i], j - Distance(row, j))
  {
    BlockerMeaning(row, row[j], j - 1);
    var b := Blocker(row, row[j], j - 1);
    BlockerSkip(row, row[i], j - 1, b);
  }

  /** `find_directional_scores`: `scores[i] = 1`, then jump left over each tree lower than tree `i`
      by that tree's own score, adding it up. A lower tree's score covers exactly the trees lower
      than it, so the jumps skip only trees lower than tree `i`. */
  method FindDirectionalScores(row: seq<int>) returns (scores: seq<int>)
    requires |row| > 0
    ensures |scores| == |row|
    ensures forall i | 0 <= i < |row| :: scores[i] == Distance(row, i)
  {
    var s := new int[|row|](k requires 0 <= k < |row| => row[k]);
    s[0] := 0;
    for i := 1 to |row|
      invariant forall k | 0 <= k < i :: s[k] == Distance(row, k)
    {
      s[i] := 1;
      var j := i - 1;
      while j > 0 && row[j] < row[i]
        invariant 0 <= j < i && s[i] == i - j
        invariant Blocker(row, row[i], i - 1) == Blocker(row, row[i], j)
        invariant forall k | 0 <= k < i :: s[k] == Distance(row, k)
        decreases j
      {
        JumpOver(row, i, j);
        var jump := s[j];
        s[i] := s[i] + jump;
        j := j - jump;
      }
    }
    scores := s[..];
  }

  /** The test: [3, 5, 3, 9, 0] gives [0, 1, 1, 3, 1]. */
  lemma ExampleScores(scores: seq<int>)
    requires |scores| == 5 && forall i | 0 <= i < 5 :: scores[i] == Distance([3, 5, 3, 9, 0], i)
    ensures scores == [0, 1, 1, 3, 1]
  {
    var row := [3, 5, 3, 9, 0];
    assert Distance(row, 3) == 3;
  }

  // ---------------------------------------------------------------------------------------------
  // The forest

  /** The rows of a grid, `row(0)` to `row(row_count - 1)`. */
  function Cells(g: Vec2d<int>): (f: seq<seq<int>>)
    reads g
    requires g.Valid()
    ensures |f| == g.rowCount && Rect(f, g.colCount)
  {
    CellRows(g, g.rowCount)
  }

  function CellRows(g: Vec2d<int>, n: nat): (f: seq<seq<int>>)
    reads g
    requires g.Valid() && n <= g.rowCount
    ensures |f| == n && Rect(f, g.colCount)
  {
    if n == 0 then []
    else
      g.RowsFit(n);
      MulPred(g.colCount, n);
      CellRows(g, n - 1) + [g.Row(n - 1)]
  }

  /** Cell `c` of row `r` is `index(r, c)`. */
  lemma {:induction false} CellsAt(g: Vec2d<int>, r: nat, c: nat)
    requires g.Valid() && r < g.rowCount && c < g.colCount
    ensures g.colCount * r + c < |g.vec| && Cells(g)[r][c] == g.At(r, c)
  {
    g.RowsFit(r + 1);
    MulPred(g.colCount, r + 1);
    CellRowsAt(g, g.rowCount, r);
    g.RowAt(r);
  }

  lemma {:induction false} CellRowsAt(g: Vec2d<int>, n: nat, r: nat)
    requires g.Valid() && r < n <= g.rowCount
    ensures g.colCount * r + g.colCount <= |g.vec| && CellRows(g, n)[r] == g.Row(r)
    decreases n
  {
    g.RowsFit(r + 1);
    MulPred(g.colCount, r + 1);
    if r < n - 1 {
      CellRowsAt(g, n - 1, r);
    }
  }

  /** The row read right to left (`iter().rev()`). */
  function Reversed(s: seq<int>): (t: seq<int>)
    ensures |t| == |s| && forall i | 0 <= i < |s| :: t[i] == s[|s| - 1 - i]
  {
    seq(|s|, i requires 0 <= i < |s| => s[|s| - 1 - i])
  }

  /** Column `c` read top to bottom (`col(c)`). */
  function Column(f: seq<seq<int>>, width: nat, c: nat): (col: seq<int>)
    requires Rect(f, width) && c < width
    ensures |col| == |f| && forall r | 0 <= r < |f| :: col[r] == f[r][c]
  {
    seq(|f|, r requires 0 <= r < |f| && c < |f[r]| => f[r][c])
  }

  /** The two row scans: heights for part 1, viewing distances for part 2. */
  datatype Survey = Heights | Distances

  function Scan(survey: Survey, line: seq<int>, i: nat): int
    requires i < |line|
  {
    match survey
    case Heights => MaxBefore(line, i)
    case Distances => Distance(line, i)
  }

  /** `find_min_heights` or `find_directional_scores`. */
  method ScanLine(survey: Survey, line: seq<int>) returns (out: seq<int>)
    requires |line| > 0 || survey == Heights
    ensures |out| == |line| && forall i | 0 <= i < |line| :: out[i] == Scan(survey, line, i)
  {
    if survey == Heights {
      out := FindMinHeights(line);
    } else {
      out := FindDirectionalScores(line);
    }
  }

  /** The four directions a tree can be seen from. */
  datatype Direction = Left | Right | Top | Bottom

  /** Cell `(r, c)` of `from_left`, `from_right`, `from_top` or `from_bottom`: the scan of the row
      or column that reaches the tree from that edge, at the tree's position along it. */
  function View(survey: Survey, f: seq<seq<int>>, width: nat, d: Direction, r: nat, c: nat): int
    requires Rect(f, width) && r < |f| && c < width
  {
    match d
    case Left => Scan(survey, f[r], c)
    case Right => Scan(survey, Reversed(f[r]), width - 1 - c)
    case Top => Scan(survey, Column(f, width, c), r)
    case Bottom => Scan(survey, Reversed(Column(f, width, c)), |f| - 1 - r)
  }

  /** `view` holds, at every cell, the scan of the forest from edge `d`. */
  ghost predicate IsView(view: Vec2d<int>, f: seq<seq<int>>, width: nat, survey: Survey, d: Direction)
    reads view
    requires Rect(f, width)
  {
    && view.Valid() && view.rowCount == |f| && view.colCount == width
    && forall r, c | 0 <= r < |f| && 0 <= c < width && width * r + c < |view.vec| ::
         view.At(r, c) == View(survey, f, width, d, r, c)
  }

  /** `from_left` or `from_right`: every row scanned (`from_right` scans it reversed and reverses
      the result back), the results collected into a new grid. */
  method RowView(survey: Survey, forest: Vec2d<int>, d: Direction) returns (view: Vec2d<int>)
    requires forest.Valid() && (d == Left || d == Right)
    requires survey == Distances ==> forest.colCount > 0 || forest.rowCount == 0
    ensures fresh(view) && IsView(view, Cells(forest), forest.colCount, survey, d)
  {
    ghost var f := Cells(forest);
    var width := forest.colCount;
    var rows: seq<seq<int>> := [];
    var flat: seq<int> := [];
    for i := 0 to forest.rowCount
      invariant |rows| == i && Rect(rows, width) && flat == Flatten(rows)
      invariant forall r, c | 0 <= r < i && 0 <= c < width :: rows[r][c] == View(survey, f, width, d, r, c)
    {
      CellRowsAt(forest, forest.rowCount, i);
      var row := forest.Row(i);
      assert row == f[i];
      var out: seq<int>;
      if d == Left {
        out := ScanLine(survey, row);
      } else {
        var scanned := ScanLine(survey, Reversed(row));
        out := Reversed(scanned);
      }
      assert rows + [out] == (rows + [out])[..i] + [out];
      rows := rows + [out];
      flat := flat + out;
    }
    FlattenSize(rows, width);
    view := new Vec2d(flat, forest.rowCount, width);
    forall r, c | 0 <= r < forest.rowCount && 0 <= c < width && width * r + c < |view.vec|
      ensures view.At(r, c) == View(survey, f, width, d, r, c)
    {
      FlattenAt(rows, width, r, c);
    }
  }

  /** `for i in 0..row_count { *view.index_mut(i, j) = out[i]; }`: column `j` becomes `out` and
      the other columns keep their cells. */
  method WriteColumn(view: Vec2d<int>, j: nat, out: seq<int>)
    requires view.Valid() && j < view.colCount && |out| == view.rowCount
    modifies view
    ensures view.Valid() && |view.vec| == old(|view.vec|)
    ensures forall r | 0 <= r < view.rowCount ::
              view.colCount * r + j < |view.vec| && view.At(r, j) == out[r]
    ensures forall r, c | 0 <= r < view.rowCount && 0 <= c < view.colCount && c != j && view.colCount * r + c < |view.vec| ::
              view.At(r, c) == old(view.At(r, c))
  {
    for i := 0 to view.rowCount
      invariant view.Valid() && |view.vec| == old(|view.vec|)
      invariant forall r | 0 <= r < i :: view.colCount * r + j < |view.vec| && view.At(r, j) == out[r]
      invariant forall r, c | 0 <= r < view.rowCount && 0 <= c < view.colCount && c != j && view.colCount * r + c < |view.vec| ::
                  view.At(r, c) == old(view.At(r, c))
    {
      Inside(view.rowCount, view.colCount, i, j);
      view.Set(i, j, out[i]);
    }
  }

  /** `from_top` or `from_bottom`: a copy of the forest whose cells are overwritten column by
      column with the scan of that column (`from_bottom` scans it reversed and reverses back). */
  method ColumnView(survey: Survey, forest: Vec2d<int>, d: Direction) returns (view: Vec2d<int>)
    requires forest.Valid() && (d == Top || d == Bottom)
    requires survey == Distances ==> forest.rowCount > 0 || forest.colCount == 0
    ensures fresh(view) && IsView(view, Cells(forest), forest.colCount, survey, d)
  {
    ghost var f := Cells(forest);
    var width := forest.colCount;
    view := new Vec2d(forest.vec, forest.rowCount, width);
    for j := 0 to width
      invariant view.Valid() && view.rowCount == |f| && view.colCount == width
      invariant forall r, c | 0 <= r < |f| && 0 <= c < j && width * r + c < |view.vec| ::
                  view.At(r, c) == View(survey, f, width, d, r, c)
    {
      var out := ScanColumn(survey, forest, f, d, j);
      WriteColumn(view, j, out);
    }
  }

  /** The scan of column `j` of `from_top` or `from_bottom`. */
  method ScanColumn(survey: Survey, forest: Vec2d<int>, ghost f: seq<seq<int>>, d: Direction, j: nat)
    returns (out: seq<int>)
    requires forest.Valid() && f == Cells(forest) && (d == Top || d == Bottom) && j < forest.colCount
    requires survey == Distances ==> forest.rowCount > 0
    ensures |out| == |f| && forall r | 0 <= r < |f| :: out[r] == View(survey, f, forest.colCount, d, r, j)
  {
    forest.ColAt(j);
    var col := forest.Col(j);
    forall r | 0 <= r < forest.rowCount ensures col[r] == f[r][j] {
      CellsAt(forest, r, j);
    }
    assert col == Column(f, forest.colCount, j);
    if d == Top {
      out := ScanLine(survey, col);
    } else {
      var scanned := ScanLine(survey, Reversed(col));
      out := Reversed(scanned);
    }
  }

  // ---------------------------------------------------------------------------------------------
  // Part 1: visible trees

  /** The tree at `(r, c)` is taller than the tallest tree before it from some edge. */
  predicate Visible(f: seq<seq<int>>, width: nat, r: nat, c: nat)
    requires Rect(f, width) && r < |f| && c < width
  {
    || f[r][c] > View(Heights, f, width, Left, r, c)
    || f[r][c] > View(Heights, f, width, Right, r, c)
    || f[r][c] > View(Heights, f, width, Top, r, c)
    || f[r][c] > View(Heights, f, width, Bottom, r, c)
  }

  /** Every tree between `(r, c)` and the given edge is lower than it. */
  ghost predicate ClearTo(f: seq<seq<int>>, width: nat, d: Direction, r: nat, c: nat)
    requires Rect(f, width) && r < |f| && c < width
  {
    match d
    case Left => forall k | 0 <= k < c :: f[r][k] < f[r][c]
    case Right => forall k | c < k < width :: f[r][k] < f[r][c]
    case Top => forall k | 0 <= k < r :: f[k][c] < f[r][c]
    case Bottom => forall k | r < k < |f| :: f[k][c] < f[r][c]
  }

  /** A tree is lower than everything before position `i` of a reversed line exactly when it is
      lower than everything after position `|line| - 1 - i` of the line. */
  lemma ReversedBefore(line: seq<int>, i: nat, h: int)
    requires i < |line|
    ensures (forall k | 0 <= k < i :: Reversed(line)[k] < h) <==> (forall k | |line| - 1 - i < k < |line| :: line[k] < h)
  {
    var rev := Reversed(line);
    if forall k | 0 <= k < i :: rev[k] < h {
      forall k | |line| - 1 - i < k < |line| ensures line[k] < h {
        assert rev[|line| - 1 - k] == line[k];
      }
    }
  }

  /** Seen from one edge, the tree beats the scan exactly when the way to that edge is clear. */
  lemma ViewMeaning(f: seq<seq<int>>, width: nat, d: Direction, r: nat, c: nat)
    requires Rect(f, width) && r < |f| && c < width && f[r][c] >= 0
    ensures f[r][c] > View(Heights, f, width, d, r, c) <==> ClearTo(f, width, d, r, c)
  {
    var h := f[r][c];
    match d
    case Left =>
      TallerThanBefore(f[r], c);
    case Right =>
      var rev := Reversed(f[r]);
      TallerThanBefore(rev, width - 1 - c);
      ReversedBefore(f[r], width - 1 - c, h);
    case Top =>
      ViewMeaningTop(f, width, r, c);
    case Bottom =>
      ViewMeaningBottom(f, width, r, c);
  }

  lemma ViewMeaningTop(f: seq<seq<int>>, width: nat, r: nat, c: nat)
    requires Rect(f, width) && r < |f| && c < width && f[r][c] >= 0
    ensures f[r][c] > View(Heights, f, width, Top, r, c) <==> ClearTo(f, width, Top, r, c)
  {
    var h := f[r][c];
    var col := Column(f, width, c);
    TallerThanBefore(col, r);
    assert (forall k | 0 <= k < r :: col[k] < h) <==> (forall k | 0 <= k < r :: f[k][c] < h);
  }

  lemma ViewMeaningBottom(f: seq<seq<int>>, width: nat, r: nat, c: nat)
    requires Rect(f, width) && r < |f| && c < width && f[r][c] >= 0
    ensures f[r][c] > View(Heights, f, width, Bottom, r, c) <==> ClearTo(f, width, Bottom, r, c)
  {
    var h := f[r][c];
    var col := Column(f, width, c);
    var rev := Reversed(col);
    TallerThanBefore(rev, |f| - 1 - r);
    ReversedBefore(col, |f| - 1 - r, h);
    assert (forall k | r < k < |f| :: col[k] < h) <==> (forall k | r < k < |f| :: f[k][c] < h);
  }

  /** A tree is visible exactly when nothing as tall stands between it and some edge. */
  lemma VisibleMeaning(f: seq<seq<int>>, width: nat, r: nat, c: nat)
    requires Rect(f, width) && r < |f| && c < width && f[r][c] >= 0
    ensures Visible(f, width, r, c) <==>
              ClearTo(f, width, Left, r, c) || ClearTo(f, width, Right, r, c)
              || ClearTo(f, width, Top, r, c) || ClearTo(f, width, Bottom, r, c)
  {
    ViewMeaning(f, width, Left, r, c);
    ViewMeaning(f, width, Right, r, c);
    ViewMeaning(f, width, Top, r, c);
    ViewMeaning(f, width, Bottom, r, c);
  }

  /** Trees on the edge are always visible. */
  lemma EdgeVisible(f: seq<seq<int>>, width: nat, r: nat, c: nat)
    requires Rect(f, width) && r < |f| && c < width && f[r][c] >= 0
    requires r == 0 || c == 0 || r == |f| - 1 || c == width - 1
    ensures Visible(f, width, r, c)
  {
    VisibleMeaning(f, width, r, c);
  }

  /** Which trees of row `r` are visible, left to right. */
  function VisibleRow(f: seq<seq<int>>, width: nat, r: nat): (row: seq<bool>)
    requires Rect(f, width) && r < |f|
    ensures |row| == width
  {
    seq(width, c requires 0 <= c < width => Visible(f, width, r, c))
  }

  /** Which trees of the forest are visible, row by row. */
  function VisibleGrid(f: seq<seq<int>>, width: nat): (g: seq<seq<bool>>)
    requires Rect(f, width)
    ensures |g| == |f|
  {
    seq(|f|, r requires 0 <= r < |f| => VisibleRow(f, width, r))
  }

  /** The `count += 1` of one row: how many of the first `j` flags are set. */
  function CountTrue(flags: seq<bool>, j: nat): nat
    requires j <= |flags|
  {
    if j == 0 then 0 else CountTrue(flags, j - 1) + (if flags[j - 1] then 1 else 0)
  }

  /** The count over the first `i` rows. */
  function CountRows(flags: seq<seq<bool>>, i: nat): nat
    requires i <= |flags|
  {
    if i == 0 then 0 else CountRows(flags, i - 1) + CountTrue(flags[i - 1], |flags[i - 1]|)
  }

  /** No more are counted than there are flags, and all are counted when all are set. */
  lemma {:induction false} CountTrueBounds(flags: seq<bool>, j: nat)
    requires j <= |flags|
    ensures CountTrue(flags, j) <= j
    ensures (forall k | 0 <= k < j :: flags[k]) ==> CountTrue(flags, j) == j
    ensures (exists k | 0 <= k < j :: flags[k]) ==> CountTrue(flags, j) > 0
    decreases j
  {
    if j > 0 {
      CountTrueBounds(flags, j - 1);
    }
  }

  /** A row of the forest shows at most `width` trees, and every tree of the first and the last
      row, and its first and last tree, are seen. */
  lemma VisibleRowCount(f: seq<seq<int>>, width: nat, r: nat)
    requires Rect(f, width) && r < |f| && forall k, c | 0 <= k < |f| && 0 <= c < width :: f[k][c] >= 0
    ensures CountTrue(VisibleRow(f, width, r), width) <= width
    ensures (r == 0 || r == |f| - 1) ==> CountTrue(VisibleRow(f, width, r), width) == width
    ensures width > 0 ==> CountTrue(VisibleRow(f, width, r), width) > 0
  {
    var row := VisibleRow(f, width, r);
    CountTrueBounds(row, width);
    if r == 0 || r == |f| - 1 {
      forall c | 0 <= c < width ensures row[c] {
        EdgeVisible(f, width, r, c);
      }
    }
    if width > 0 {
      EdgeVisible(f, width, r, 0);
      assert row[0];
    }
  }

  /** Reading one cell of a view. */
  lemma ViewCell(view: Vec2d<int>, f: seq<seq<int>>, width: nat, survey: Survey, d: Direction, r: nat, c: nat)
    requires Rect(f, width) && IsView(view, f, width, survey, d) && r < |f| && c < width
    ensures width * r + c < |view.vec| && view.At(r, c) == View(survey, f, width, d, r, c)
  {
    Inside(|f|, width, r, c);
  }

  /** `seen` is, along row `i`, whether the tree is taller than one of the four views. */
  ghost predicate RowSeen(forest: Vec2d<int>, fromLeft: Vec2d<int>, fromRight: Vec2d<int>, fromTop: Vec2d<int>,
                          fromBottom: Vec2d<int>, i: nat, seen: seq<bool>)
    reads forest, fromLeft, fromRight, fromTop, fromBottom
  {
    && forest.Valid() && fromLeft.Valid() && fromRight.Valid() && fromTop.Valid() && fromBottom.Valid()
    && fromLeft.colCount == forest.colCount && fromRight.colCount == forest.colCount
    && fromTop.colCount == forest.colCount && fromBottom.colCount == forest.colCount
    && |fromLeft.vec| == |forest.vec| && |fromRight.vec| == |forest.vec|
    && |fromTop.vec| == |forest.vec| && |fromBottom.vec| == |forest.vec|
    && i < forest.rowCount && |seen| == forest.colCount
    && forall j | 0 <= j < |seen| && forest.colCount * i + j < |forest.vec| ::
         seen[j] == (forest.At(i, j) > fromLeft.At(i, j) || forest.At(i, j) > fromRight.At(i, j)
                     || forest.At(i, j) > fromTop.At(i, j) || forest.At(i, j) > fromBottom.At(i, j))
  }

  /** Comparing with the four height views along a row tells which of its trees are visible. */
  lemma RowSeenOfForest(forest: Vec2d<int>, f: seq<seq<int>>, fromLeft: Vec2d<int>, fromRight: Vec2d<int>,
                        fromTop: Vec2d<int>, fromBottom: Vec2d<int>, i: nat)
    requires forest.Valid() && f == Cells(forest) && i < forest.rowCount
    requires IsView(fromLeft, f, forest.colCount, Heights, Left) && IsView(fromRight, f, forest.colCount, Heights, Right)
    requires IsView(fromTop, f, forest.colCount, Heights, Top) && IsView(fromBottom, f, forest.colCount, Heights, Bottom)
    ensures RowSeen(forest, fromLeft, fromRight, fromTop, fromBottom, i, VisibleRow(f, forest.colCount, i))
  {
    var width := forest.colCount;
    var seen := VisibleRow(f, width, i);
    forall j | 0 <= j < |seen| && width * i + j < |forest.vec|
      ensures seen[j] == (forest.At(i, j) > fromLeft.At(i, j) || forest.At(i, j) > fromRight.At(i, j)
                          || forest.At(i, j) > fromTop.At(i, j) || forest.At(i, j) > fromBottom.At(i, j))
    {
      CellsAt(forest, i, j);
      ViewCell(fromLeft, f, width, Heights, Left, i, j);
      ViewCell(fromRight, f, width, Heights, Right, i, j);
      ViewCell(fromTop, f, width, Heights, Top, i, j);
      ViewCell(fromBottom, f, width, Heights, Bottom, i, j);
    }
  }

  /** The inner loop of `part_1`: along row `i`, count the trees taller than one of the four
      views at their cell. */
  method CountRow(forest: Vec2d<int>, fromLeft: Vec2d<int>, fromRight: Vec2d<int>, fromTop: Vec2d<int>,
                  fromBottom: Vec2d<int>, i: nat, ghost seen: seq<bool>) returns (count: nat)
    requires RowSeen(forest, fromLeft, fromRight, fromTop, fromBottom, i, seen)
    ensures count == CountTrue(seen, |seen|)
  {
    count := 0;
    for j := 0 to forest.colCount
      invariant count == CountTrue(seen, j)
    {
      Inside(forest.rowCount, forest.colCount, i, j);
      var height := forest.At(i, j);
      if height > fromLeft.At(i, j) || height > fromRight.At(i, j)
         || height > fromTop.At(i, j) || height > fromBottom.At(i, j)
      {
        count := count + 1;
      }
    }
  }

  /** The outer loop of `part_1`, over the rows. */
  method CountVisible(forest: Vec2d<int>, fromLeft: Vec2d<int>, fromRight: Vec2d<int>, fromTop: Vec2d<int>,
                      fromBottom: Vec2d<int>, ghost seen: seq<seq<bool>>) returns (count: nat)
    requires |seen| == forest.rowCount
    requires forall i | 0 <= i < |seen| :: RowSeen(forest, fromLeft, fromRight, fromTop, fromBottom, i, seen[i])
    ensures count == CountRows(seen, |seen|)
  {
    count := 0;
    for i := 0 to forest.rowCount
      invariant count == CountRows(seen, i)
    {
      var inRow := CountRow(forest, fromLeft, fromRight, fromTop, fromBottom, i, seen[i]);
      count := count + inRow;
    }
  }

  /** `part_1` on a grid: the four height views, then the count of the trees taller than one of
      them at their cell. */
  method Part1(forest: Vec2d<int>) returns (count: nat)
    requires forest.Valid()
    ensures count == CountRows(VisibleGrid(Cells(forest), forest.colCount), forest.rowCount)
  {
    var fromLeft := RowView(Heights, forest, Left);
    var fromRight := RowView(Heights, forest, Right);
    var fromTop := ColumnView(Heights, forest, Top);
    var fromBottom := ColumnView(Heights, forest, Bottom);
    ghost var f := Cells(forest);
    ghost var seen := VisibleGrid(f, forest.colCount);
    forall i | 0 <= i < |seen| ensures RowSeen(forest, fromLeft, fromRight, fromTop, fromBottom, i, seen[i]) {
      RowSeenOfForest(forest, f, fromLeft, fromRight, fromTop, fromBottom, i);
    }
    count := CountVisible(forest, fromLeft, fromRight, fromTop, fromBottom, seen);
  }

  // ---------------------------------------------------------------------------------------------
  // Part 2: the best scenic score

  /** The product of the four viewing distances of the tree at `(r, c)`. */
  function ScenicScore(f: seq<seq<int>>, width: nat, r: nat, c: nat): int
    requires Rect(f, width) && r < |f| && c < width
  {
    View(Distances, f, width, Left, r, c) * View(Distances, f, width, Right, r, c)
    * View(Distances, f, width, Top, r, c) * View(Distances, f, width, Bottom, r, c)
  }

  /** A scenic score is never negative, and a tree on the edge sees nothing in one direction, so
      its score is zero. */
  lemma ScenicScoreBounds(f: seq<seq<int>>, width: nat, r: nat, c: nat)
    requires Rect(f, width) && r < |f| && c < width
    ensures ScenicScore(f, width, r, c) >= 0
    ensures (r == 0 || c == 0 || r == |f| - 1 || c == width - 1) ==> ScenicScore(f, width, r, c) == 0
  {
    var left, right := View(Distances, f, width, Left, r, c), View(Distances, f, width, Right, r, c);
    var top, bottom := View(Distances, f, width, Top, r, c), View(Distances, f, width, Bottom, r, c);
    ProductBounds(left, right, top, bottom);
  }

  lemma ProductBounds(a: int, b: int, c: int, d: int)
    requires a >= 0 && b >= 0 && c >= 0 && d >= 0
    ensures a * b * c * d >= 0
    ensures (a == 0 || b == 0 || c == 0 || d == 0) ==> a * b * c * d == 0
  {
    assert a * b >= 0 && a * b * c >= 0;
  }

  /** The scenic scores of row `r`, left to right. */
  function ScenicRow(f: seq<seq<int>>, width: nat, r: nat): (row: seq<int>)
    requires Rect(f, width) && r < |f|
    ensures |row| == width
  {
    seq(width, c requires 0 <= c < width => ScenicScore(f, width, r, c))
  }

  /** The running best of `if score > best { best = score }`, starting at 0, after the first `j`
      scores. */
  function RunningBest(scores: seq<int>, j: nat): int
    requires j <= |scores|
  {
    if j == 0 then 0 else Max(RunningBest(scores, j - 1), scores[j - 1])
  }

  /** The running best is at least every score seen, and is 0 or one of them. */
  lemma {:induction false} RunningBestIsMax(scores: seq<int>, j: nat)
    requires j <= |scores|
    ensures forall c | 0 <= c < j :: scores[c] <= RunningBest(scores, j)
    ensures RunningBest(scores, j) == 0 || exists c | 0 <= c < j :: RunningBest(scores, j) == scores[c]
    decreases j
  {
    if j > 0 {
      RunningBestIsMax(scores, j - 1);
    }
  }

  /** The scenic scores of the whole forest, row by row. */
  function ScenicGrid(f: seq<seq<int>>, width: nat): (g: seq<seq<int>>)
    requires Rect(f, width)
    ensures |g| == |f|
  {
    seq(|f|, r requires 0 <= r < |f| => ScenicRow(f, width, r))
  }

  /** The running best after the first `i` rows, carried from row to row. */
  function BestRows(scores: seq<seq<int>>, i: nat): int
    requires i <= |scores|
  {
    if i == 0 then 0 else Max(BestRows(scores, i - 1), RunningBest(scores[i - 1], |scores[i - 1]|))
  }

  /** The running best over the rows is at least every score, and is 0 or one of them. */
  lemma {:induction false} BestRowsIsMax(scores: seq<seq<int>>, i: nat)
    requires i <= |scores|
    ensures forall r, c | 0 <= r < i && 0 <= c < |scores[r]| :: scores[r][c] <= BestRows(scores, i)
    ensures BestRows(scores, i) == 0
            || exists r, c | 0 <= r < i && 0 <= c < |scores[r]| :: BestRows(scores, i) == scores[r][c]
    decreases i
  {
    if i > 0 {
      BestRowsIsMax(scores, i - 1);
      RunningBestIsMax(scores[i - 1], |scores[i - 1]|);
    }
  }

  /** Cell `(r, c)` of the score grid is the scenic score of tree `(r, c)`. */
  lemma ScenicGridAt(f: seq<seq<int>>, width: nat, r: nat, c: nat)
    requires Rect(f, width) && r < |f| && c < width
    ensures |ScenicGrid(f, width)[r]| == width
    ensures ScenicGrid(f, width)[r][c] == ScenicScore(f, width, r, c)
  {
  }

  /** `part_2`'s answer on a forest: at least the scenic score of every tree, and 0 or the score
      of some tree. */
  lemma BestScenicScore(f: seq<seq<int>>, width: nat)
    requires Rect(f, width)
    ensures forall r, c | 0 <= r < |f| && 0 <= c < width :: ScenicScore(f, width, r, c) <= BestRows(ScenicGrid(f, width), |f|)
    ensures BestRows(ScenicGrid(f, width), |f|) == 0
            || exists r, c | 0 <= r < |f| && 0 <= c < width :: BestRows(ScenicGrid(f, width), |f|) == ScenicScore(f, width, r, c)
  {
    var g := ScenicGrid(f, width);
    BestRowsIsMax(g, |f|);
    forall r, c | 0 <= r < |f| && 0 <= c < width ensures ScenicScore(f, width, r, c) <= BestRows(g, |f|) {
      ScenicGridAt(f, width, r, c);
    }
    if BestRows(g, |f|) != 0 {
      var r, c :| 0 <= r < |f| && 0 <= c < |g[r]| && BestRows(g, |f|) == g[r][c];
      ScenicGridAt(f, width, r, c);
    }
  }

  /** `scores` are the products of the four views along row `i`. */
  ghost predicate RowScores(fromLeft: Vec2d<int>, fromRight: Vec2d<int>, fromTop: Vec2d<int>,
                            fromBottom: Vec2d<int>, i: nat, scores: seq<int>)
    reads fromLeft, fromRight, fromTop, fromBottom
  {
    && fromLeft.Valid() && fromRight.Valid() && fromTop.Valid() && fromBottom.Valid()
    && fromRight.colCount == fromLeft.colCount && fromTop.colCount == fromLeft.colCount
    && fromBottom.colCount == fromLeft.colCount
    && |fromRight.vec| == |fromLeft.vec| && |fromTop.vec| == |fromLeft.vec| && |fromBottom.vec| == |fromLeft.vec|
    && i < fromLeft.rowCount && |scores| == fromLeft.colCount
    && forall j | 0 <= j < |scores| && fromLeft.colCount * i + j < |fromLeft.vec| ::
         scores[j] == fromLeft.At(i, j) * fromRight.At(i, j) * fromTop.At(i, j) * fromBottom.At(i, j)
  }

  /** The products of the four distance views along a row are the scenic scores of that row. */
  lemma RowScoresOfForest(f: seq<seq<int>>, width: nat, fromLeft: Vec2d<int>, fromRight: Vec2d<int>,
                          fromTop: Vec2d<int>, fromBottom: Vec2d<int>, i: nat)
    requires Rect(f, width) && i < |f|
    requires IsView(fromLeft, f, width, Distances, Left) && IsView(fromRight, f, width, Distances, Right)
    requires IsView(fromTop, f, width, Distances, Top) && IsView(fromBottom, f, width, Distances, Bottom)
    ensures RowScores(fromLeft, fromRight, fromTop, fromBottom, i, ScenicRow(f, width, i))
  {
    var scores := ScenicRow(f, width, i);
    forall j | 0 <= j < |scores| && width * i + j < |fromLeft.vec|
      ensures scores[j] == fromLeft.At(i, j) * fromRight.At(i, j) * fromTop.At(i, j) * fromBottom.At(i, j)
    {
      ViewCell(fromLeft, f, width, Distances, Left, i, j);
      ViewCell(fromRight, f, width, Distances, Right, i, j);
      ViewCell(fromTop, f, width, Distances, Top, i, j);
      ViewCell(fromBottom, f, width, Distances, Bottom, i, j);
    }
  }

  /** The inner loop of `part_2`: multiply the four views at each tree of row `i`, and keep
      `if scenic_score > best_score { best_score = scenic_score }`. */
  method BestRow(fromLeft: Vec2d<int>, fromRight: Vec2d<int>, fromTop: Vec2d<int>, fromBottom: Vec2d<int>,
                 i: nat, ghost scores: seq<int>, start: int) returns (best: int)
    requires RowScores(fromLeft, fromRight, fromTop, fromBottom, i, scores) && start >= 0
    ensures best == Max(start, RunningBest(scores, |scores|))
  {
    best := start;
    for j := 0 to fromLeft.colCount
      invariant best == Max(start, RunningBest(scores, j))
    {
      Inside(fromLeft.rowCount, fromLeft.colCount, i, j);
      var scenic := fromLeft.At(i, j) * fromRight.At(i, j) * fromTop.At(i, j) * fromBottom.At(i, j);
      if scenic > best {
        best := scenic;
      }
    }
  }

  /** The outer loop of `part_2`, over the rows, with the running best carried along. */
  method BestOfViews(fromLeft: Vec2d<int>, fromRight: Vec2d<int>, fromTop: Vec2d<int>, fromBottom: Vec2d<int>,
                     ghost scores: seq<seq<int>>) returns (best: int)
    requires |scores| == fromLeft.rowCount
    requires forall i | 0 <= i < |scores| :: RowScores(fromLeft, fromRight, fromTop, fromBottom, i, scores[i])
    ensures best == BestRows(scores, |scores|)
  {
    best := 0;
    for i := 0 to fromLeft.rowCount
      invariant best == BestRows(scores, i) && best >= 0
    {
      best := BestRow(fromLeft, fromRight, fromTop, fromBottom, i, scores[i], best);
    }
  }

  /** `part_2` on a grid. Every row and every column is scanned, so a forest with rows needs
      columns and the other way round. */
  method Part2(forest: Vec2d<int>) returns (best: int)
    requires forest.Valid()
    requires (forest.rowCount > 0 && forest.colCount > 0) || (forest.rowCount == 0 && forest.colCount == 0)
    ensures best == BestRows(ScenicGrid(Cells(forest), forest.colCount), forest.rowCount)
  {
    var fromLeft := RowView(Distances, forest, Left);
    var fromRight := RowView(Distances, forest, Right);
    var fromTop := ColumnView(Distances, forest, Top);
    var fromBottom := ColumnView(Distances, forest, Bottom);
    ghost var f := Cells(forest);
    ghost var scores := ScenicGrid(f, forest.colCount);
    forall i | 0 <= i < |scores| ensures RowScores(fromLeft, fromRight, fromTop, fromBottom, i, scores[i]) {
      RowScoresOfForest(f, forest.colCount, fromLeft, fromRight, fromTop, fromBottom, i);
    }
    best := BestOfViews(fromLeft, fromRight, fromTop, fromBottom, scores);
  }

  // ---------------------------------------------------------------------------------------------
  // `forest_from_file`

  /** The digits of one line of the input file, each byte parsed on its own. */
  function DigitValues(line: string): (row: seq<int>)
    ensures |row| == |line|
  {
    seq(|line|, k requires 0 <= k < |line| => line[k] as int - '0' as int)
  }

  /** The digits of every line. */
  function DigitRows(lines: seq<string>): (rows: seq<seq<int>>)
    ensures |rows| == |lines|
  {
    seq(|lines|, i requires 0 <= i < |lines| => DigitValues(lines[i]))
  }

  /** The flat buffer and the dimensions `forest_from_file` hands to `Vec2d::new`. */
  datatype Shape = Shape(cells: seq<int>, rows: nat, cols: nat)

  /** `forest_from_file` on the lines of the file: the width is the length of the first line
      (`get(0).unwrap()` fails on an empty file), every byte must parse as a digit, and the
      flattened digits must fill `height * width` cells (the assertion of `Vec2d::new`). Only the
      total is checked, so lines of unequal length can still be accepted. */
  function ForestInput(lines: seq<string>): Option<Shape>
  {
    if lines == [] then None
    else if exists i | 0 <= i < |lines| :: !AllDigits(lines[i]) then None
    else if |Flatten(DigitRows(lines))| != |lines| * |lines[0]| then None
    else Some(Shape(Flatten(DigitRows(lines)), |lines|, |lines[0]|))
  }

  /** An empty file, or a byte that is not a digit, is rejected. */
  lemma ForestInputRejects(lines: seq<string>, i: nat)
    requires lines == [] || (i < |lines| && !AllDigits(lines[i]))
    ensures ForestInput(lines).None?
  {
  }

  /** Lines of one length, all digits, give a forest whose cell `(r, c)` is the digit at column `c`
      of line `r`. */
  lemma ForestInputAt(lines: seq<string>, r: nat, c: nat)
    requires lines != [] && forall i | 0 <= i < |lines| :: AllDigits(lines[i]) && |lines[i]| == |lines[0]|
    requires r < |lines| && c < |lines[0]|
    ensures ForestInput(lines).Some?
    ensures ForestInput(lines).value.rows == |lines| && ForestInput(lines).value.cols == |lines[0]|
    ensures |lines[0]| * r + c < |ForestInput(lines).value.cells|
    ensures ForestInput(lines).value.cells[|lines[0]| * r + c] == lines[r][c] as int - '0' as int
  {
    var rows := DigitRows(lines);
    assert Rect(rows, |lines[0]|);
    FlattenAt(rows, |lines[0]|, r, c);
  }

  /** Only the total is checked: three lines of lengths 2, 1 and 3 pass as a three-by-two grid
      whose second row is `3, 4`. */
  lemma ForestInputRagged()
    ensures ForestInput(["12", "3", "456"]) == Some(Shape([1, 2, 3, 4, 5, 6], 3, 2))
  {
    var lines := ["12", "3", "456"];
    assert AllDigits(lines[0]) && AllDigits(lines[1]) && AllDigits(lines[2]);
    assert DigitValues(lines[0]) == [1, 2];
    assert DigitValues(lines[1]) == [3];
    assert DigitValues(lines[2]) == [4, 5, 6];
    assert DigitRows(lines) == [[1, 2], [3], [4, 5, 6]];
    RaggedFlatten();
  }

  lemma RaggedFlatten()
    ensures Flatten([[1, 2], [3], [4, 5, 6]]) == [1, 2, 3, 4, 5, 6]
  {
    assert [[1, 2]][..0] == [] && Flatten([[1, 2]]) == [1, 2];
    assert [[1, 2], [3]][..1] == [[1, 2]] && Flatten([[1, 2], [3]]) == [1, 2, 3];
    assert [[1, 2], [3], [4, 5, 6]][..2] == [[1, 2], [3]];
  }

  /** `forest_from_file`: the grid, or `None` where the source panics. */
  method ForestFromFile(lines: seq<string>) returns (forest: Option<Vec2d<int>>)
    ensures forest.None? <==> ForestInput(lines).None?
    ensures forest.Some? ==> fresh(forest.value) && forest.value.Valid()
    ensures forest.Some? ==> forest.value.vec == ForestInput(lines).value.cells
                             && forest.value.rowCount == ForestInput(lines).value.rows
                             && forest.value.colCount == ForestInput(lines).value.cols
  {
    match ForestInput(lines)
    case None =>
      forest := None;
    case Some(shape) =>
      var grid := new Vec2d(shape.cells, shape.rows, shape.cols);
      forest := Some(grid);
  }

  // ---------------------------------------------------------------------------------------------
  // The five-by-five test forest

  /** The digits of `test08.txt`: 30373, 25512, 65332, 33549, 35390. */
  function ExampleForest(): (f: seq<seq<int>>)
    ensures Rect(f, 5) && |f| == 5
  {
    [[3, 0, 3, 7, 3], [2, 5, 5, 1, 2], [6, 5, 3, 3, 2], [3, 3, 5, 4, 9], [3, 5, 3, 9, 0]]
  }

  lemma ExampleColumns()
    ensures Column(ExampleForest(), 5, 0) == [3, 2, 6, 3, 3]
    ensures Column(ExampleForest(), 5, 1) == [0, 5, 5, 3, 5]
    ensures Column(ExampleForest(), 5, 2) == [3, 5, 3, 5, 3]
    ensures Column(ExampleForest(), 5, 3) == [7, 1, 3, 4, 9]
    ensures Column(ExampleForest(), 5, 4) == [3, 2, 2, 9, 0]
  {
  }

  lemma ExampleReversedColumns()
    ensures Reversed(Column(ExampleForest(), 5, 0)) == [3, 3, 6, 2, 3]
    ensures Reversed(Column(ExampleForest(), 5, 1)) == [5, 3, 5, 5, 0]
    ensures Reversed(Column(ExampleForest(), 5, 2)) == [3, 5, 3, 5, 3]
    ensures Reversed(Column(ExampleForest(), 5, 3)) == [9, 4, 3, 1, 7]
    ensures Reversed(Column(ExampleForest(), 5, 4)) == [0, 9, 2, 2, 3]
  {
    ExampleColumns();
  }

  lemma ExampleVisibleRow0()
    ensures VisibleRow(ExampleForest(), 5, 0) == [true, true, true, true, true]
  {
    var f := ExampleForest();
    ExampleColumns();
    ExampleReversedColumns();
    assert Reversed(f[0]) == [3, 7, 3, 0, 3];
  }

  lemma ExampleVisibleRow1()
    ensures VisibleRow(ExampleForest(), 5, 1) == [true, true, true, false, true]
  {
    var f := ExampleForest();
    ExampleColumns();
    ExampleReversedColumns();
    assert Reversed(f[1]) == [2, 1, 5, 5, 2];
  }

  lemma ExampleVisibleRow2()
    ensures VisibleRow(ExampleForest(), 5, 2) == [true, true, false, true, true]
  {
    var f := ExampleForest();
    ExampleColumns();
    ExampleReversedColumns();
    assert Reversed(f[2]) == [2, 3, 3, 5, 6];
    assert MaxBefore([2, 3, 3, 5, 6], 1) == 2;
    assert MaxBefore([2, 3, 3, 5, 6], 3) == 3;
  }

  lemma ExampleVisibleRow3()
    ensures VisibleRow(ExampleForest(), 5, 3) == [true, false, true, false, true]
  {
    var f := ExampleForest();
    ExampleColumns();
    ExampleReversedColumns();
    assert Reversed(f[3]) == [9, 4, 5, 3, 3];
  }

  lemma ExampleVisibleRow4()
    ensures VisibleRow(ExampleForest(), 5, 4) == [true, true, true, true, true]
  {
    var f := ExampleForest();
    ExampleColumns();
    ExampleReversedColumns();
    assert Reversed(f[4]) == [0, 9, 3, 5, 3];
  }

  lemma ExampleScenicRow0()
    ensures ScenicRow(ExampleForest(), 5, 0) == [0, 0, 0, 0, 0]
  {
    var f := ExampleForest();
    ExampleColumns();
    ExampleReversedColumns();
    assert Reversed(f[0]) == [3, 7, 3, 0, 3];
  }

  lemma ExampleScenicRow1()
    ensures ScenicRow(ExampleForest(), 5, 1) == [0, 1, 4, 1, 0]
  {
    var f := ExampleForest();
    ExampleColumns();
    ExampleReversedColumns();
    assert Reversed(f[1]) == [2, 1, 5, 5, 2];
  }

  lemma ExampleScenicRow2()
    ensures ScenicRow(ExampleForest(), 5, 2) == [0, 6, 1, 2, 0]
  {
    var f := ExampleForest();
    ExampleColumns();
    ExampleReversedColumns();
    assert Reversed(f[2]) == [2, 3, 3, 5, 6];
    assert Distance([2, 3, 3, 5, 6], 3) == 3;
  }

  lemma ExampleScenicRow3()
    ensures ScenicRow(ExampleForest(), 5, 3) == [0, 1, 8, 3, 0]
  {
    var f := ExampleForest();
    ExampleColumns();
    ExampleReversedColumns();
    assert Reversed(f[3]) == [9, 4, 5, 3, 3];
  }

  lemma ExampleScenicRow4()
    ensures ScenicRow(ExampleForest(), 5, 4) == [0, 0, 0, 0, 0]
  {
    var f := ExampleForest();
    ExampleColumns();
    ExampleReversedColumns();
    assert Reversed(f[4]) == [0, 9, 3, 5, 3];
  }

  /** The test: 21 trees are visible from outside the test forest. */
  lemma ExampleVisibleCount()
    ensures CountRows(VisibleGrid(ExampleForest(), 5), 5) == 21
  {
    ExampleVisibleRow0();
    ExampleVisibleRow1();
    ExampleVisibleRow2();
    ExampleVisibleRow3();
    ExampleVisibleRow4();
    assert VisibleGrid(ExampleForest(), 5) == [[true, true, true, true, true], [true, true, true, false, true], [true, true, false, true, true], [true, false, true, false, true], [true, true, true, true, true]];
  }

  /** The test: the best scenic score in the test forest is 8. */
  lemma ExampleBestScenicScore()
    ensures BestRows(ScenicGrid(ExampleForest(), 5), 5) == 8
  {
    ExampleScenicRow0();
    ExampleScenicRow1();
    ExampleScenicRow2();
    ExampleScenicRow3();
    ExampleScenicRow4();
    assert ScenicGrid(ExampleForest(), 5) == [[0, 0, 0, 0, 0], [0, 1, 4, 1, 0], [0, 6, 1, 2, 0], [0, 1, 8, 3, 0], [0, 0, 0, 0, 0]];
  }

  /** The lines of `test08.txt` give the test forest. */
  lemma ExampleInput()
    ensures ForestInput(["30373", "25512", "65332", "33549", "35390"]) == Some(Shape(Flatten(ExampleForest()), 5, 5))
  {
    var lines := ["30373", "25512", "65332", "33549", "35390"];
    assert forall i | 0 <= i < 5 :: AllDigits(lines[i]);
    var rows := DigitRows(lines);
    assert DigitValues(lines[0]) == [3, 0, 3, 7, 3];
    assert DigitValues(lines[1]) == [2, 5, 5, 1, 2];
    assert DigitValues(lines[2]) == [6, 5, 3, 3, 2];
    assert DigitValues(lines[3]) == [3, 3, 5, 4, 9];
    assert DigitValues(lines[4]) == [3, 5, 3, 9, 0];
    assert rows == ExampleForest();
    FlattenSize(rows, 5);
  }
}
