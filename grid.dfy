/** `Vec2d<T>`: a rectangular grid stored row-major in one flat buffer. The buffer
    is reassigned in place by `Set` (the source's `index_mut`); the dimensions never change. */
module Grid {

  class Vec2d<T> {
    var vec: seq<T>
    const rowCount: nat
    const colCount: nat

    ghost predicate Valid()
      reads this
    {
      |vec| == rowCount * colCount
    }

    /** `Vec2d::new`: the buffer must hold exactly `row * col` cells (the source asserts it). */
    constructor (vec: seq<T>, row: nat, col: nat)
      requires |vec| == row * col
      ensures Valid()
      ensures this.vec == vec && rowCount == row && colCount == col
    {
      this.vec := vec;
      rowCount := row;
      colCount := col;
    }

    /** `index(row, col)`: the flat element `col_count * row + col`. Like the source, only the
        flat position is checked, so an over-long `col` reads into the next row. */
    function At(row: nat, col: nat): T
      reads this
      requires colCount * row + col < |vec|
    {
      vec[colCount * row + col]
    }

    /** `row(row)`: the `col_count` cells of one row, as the slice the source returns. */
    function Row(row: nat): (r: seq<T>)
      reads this
      requires colCount * row + colCount <= |vec|
      ensures |r| == colCount
    {
      vec[colCount * row..colCount * row + colCount]
    }

    /** Cell `c` of `row(row)` is `index(row, c)`. */
    lemma RowAt(row: nat)
      requires colCount * row + colCount <= |vec|
      ensures forall c | 0 <= c < colCount :: Row(row)[c] == At(row, c)
    {
    }

    /** `col(col)`: every `col_count`-th cell starting at flat position `col`
        (`step_by(0)` panics, hence the requirement). */
    function Col(col: nat): seq<T>
      reads this
      requires colCount > 0
    {
      StepFrom(col)
    }

    /** The cells at flat positions `i`, `i + col_count`, `i + 2 * col_count`, ... */
    function StepFrom(i: nat): seq<T>
      reads this
      requires colCount > 0
      decreases |vec| - i
    {
      if i >= |vec| then [] else [vec[i]] + StepFrom(i + colCount)
    }

    /** Element `k` of the stepped walk from `i` is the flat cell `i + k * col_count`. */
    lemma {:induction false} StepFromAt(i: nat, k: nat)
      requires colCount > 0 && k < |StepFrom(i)|
      ensures i + colCount * k < |vec| && StepFrom(i)[k] == vec[i + colCount * k]
      decreases k
    {
      if k > 0 {
        StepFromAt(i + colCount, k - 1);
        MulPred(colCount, k);
      }
    }

    /** `*index_mut(row, col) = value`: one cell is replaced and no other cell changes. */
    method Set(row: nat, col: nat, value: T)
      requires colCount * row + col < |vec|
      modifies this
      ensures vec == old(vec)[colCount * row + col := value]
      ensures At(row, col) == value
      ensures col < colCount ==>
                forall r: nat, c: nat | c < colCount && colCount * r + c < |vec| && (r != row || c != col) ::
                  At(r, c) == old(At(r, c))
    {
      vec := vec[colCount * row + col := value];
      if col < colCount {
        forall r: nat, c: nat | c < colCount && colCount * r + c < |vec| && (r != row || c != col)
          ensures At(r, c) == old(At(r, c))
        {
          FlatInjective(colCount, r, c, row, col);
        }
      }
    }

    /** For `col < col_count`, `col(col)` has one cell per row, and cell `r` is `index(r, col)`. */
    lemma ColAt(col: nat)
      requires Valid() && col < colCount
      ensures |Col(col)| == rowCount
      ensures forall r | 0 <= r < rowCount :: colCount * r + col < |vec| && Col(col)[r] == At(r, col)
    {
      StepFromLength(col, 0);
      forall r | 0 <= r < rowCount ensures colCount * r + col < |vec| && Col(col)[r] == At(r, col) {
        StepFromAt(col, r);
      }
    }

    /** The walk from row `k` of column `col` visits the remaining `row_count - k` rows. */
    lemma {:induction false} StepFromLength(col: nat, k: nat)
      requires Valid() && col < colCount && k <= rowCount
      ensures |StepFrom(col + colCount * k)| == rowCount - k
      decreases rowCount - k
    {
      var here := col + colCount * k;
      if k < rowCount {
        MulMono(colCount, k + 1, rowCount);
        MulPred(colCount, k + 1);
        StepFromLength(col, k + 1);
      } else {
        assert here >= |vec|;
      }
    }

    /** Row `r` is the part of the buffer in front of row `r + 1`. */
    lemma {:induction false} RowsPrefix(n: nat)
      requires Valid() && n <= rowCount
      ensures colCount * n <= |vec|
      ensures Rows(n) == vec[..colCount * n]
      decreases n
    {
      RowsFit(n);
      if n > 0 {
        RowsPrefix(n - 1);
        MulPred(colCount, n);
        var a, b := colCount * (n - 1), colCount * n;
        assert b == a + colCount;
        assert Row(n - 1) == vec[a..b];
        assert vec[..b] == vec[..a] + vec[a..b];
      }
    }

    /** The first `n` rows lie within the buffer. */
    lemma RowsFit(n: nat)
      requires Valid() && n <= rowCount
      ensures colCount * n <= |vec|
    {
      MulMono(colCount, n, rowCount);
      assert colCount * rowCount == rowCount * colCount;
    }

    /** The concatenation of the first `n` rows. */
    function Rows(n: nat): seq<T>
      reads this
      requires colCount * n <= |vec|
    {
      if n == 0 then []
      else
        MulPred(colCount, n);
        Rows(n - 1) + Row(n - 1)
    }

    /** Concatenating `row(0) .. row(row_count - 1)` gives back the flat buffer. */
    lemma RowsFlatten()
      requires Valid()
      ensures Rows(rowCount) == vec
    {
      RowsPrefix(rowCount);
    }
  }

  /** `rows` lines of `width` cells each. */
  ghost predicate Rect<T>(f: seq<seq<T>>, width: nat)
  {
    forall r | 0 <= r < |f| :: |f[r]| == width
  }

  /** The rows one after another (`flatten().collect()`). */
  function Flatten<T>(rows: seq<seq<T>>): seq<T>
  {
    if rows == [] then [] else Flatten(rows[..|rows| - 1]) + rows[|rows| - 1]
  }

  /** In the flattened rows of width `width`, row `r` starts at `width * r`. */
  lemma {:induction false} FlattenAt<T>(rows: seq<seq<T>>, width: nat, r: nat, c: nat)
    requires Rect(rows, width) && r < |rows| && c < width
    ensures |Flatten(rows)| == |rows| * width
    ensures width * r + c < |Flatten(rows)| && Flatten(rows)[width * r + c] == rows[r][c]
    decreases |rows|
  {
    var n := |rows|;
    var init := rows[..n - 1];
    FlattenSize(init, width);
    MulPred(width, n);
    assert |init| * width == width * (n - 1);
    if r < n - 1 {
      FlattenAt(init, width, r, c);
      MulMono(width, r + 1, n - 1);
      MulPred(width, r + 1);
    }
  }

  lemma {:induction false} FlattenSize<T>(rows: seq<seq<T>>, width: nat)
    requires Rect(rows, width)
    ensures |Flatten(rows)| == |rows| * width
    decreases |rows|
  {
    if rows != [] {
      var init := rows[..|rows| - 1];
      assert Rect(init, width) by {
        forall r | 0 <= r < |init| ensures |init[r]| == width {
          assert init[r] == rows[r];
        }
      }
      FlattenSize(init, width);
      assert |Flatten(rows)| == |Flatten(init)| + width;
      assert |init| * width + width == |rows| * width;
    }
  }

  lemma MulPred(a: nat, k: nat)
    requires k >= 1
    ensures a * (k - 1) + a == a * k
  {
  }

  lemma MulMono(a: nat, k: nat, n: nat)
    requires k <= n
    ensures a * k <= a * n
  {
  }

  /** Cell `(r, c)` of a `rows` by `cols` grid lies inside the flat buffer. */
  lemma Inside(rows: nat, cols: nat, r: nat, c: nat)
    requires r < rows && c < cols
    ensures cols * r + c < rows * cols
  {
    MulMono(cols, r + 1, rows);
    MulPred(cols, r + 1);
  }

  /** Within the grid's width, distinct (row, column) pairs have distinct flat positions. */
  lemma FlatInjective(cols: nat, r1: nat, c1: nat, r2: nat, c2: nat)
    requires c1 < cols && c2 < cols
    ensures cols * r1 + c1 == cols * r2 + c2 <==> r1 == r2 && c1 == c2
  {
    if r1 < r2 {
      MulMono(cols, r1 + 1, r2);
      MulPred(cols, r1 + 1);
    } else if r2 < r1 {
      MulMono(cols, r2 + 1, r1);
      MulPred(cols, r2 + 1);
    }
  }

  /** The test grid: 1..=30 as six rows of five. */
  lemma SixByFive(a: Vec2d<int>)
    requires a.vec == seq(30, i => i + 1) && a.rowCount == 6 && a.colCount == 5
    ensures a.Col(0) == [1, 6, 11, 16, 21, 26]
    ensures a.Row(0) == [1, 2, 3, 4, 5]
  {
    a.ColAt(0);
  }
}
