/** Small value types and folds shared by the puzzle models. */
module Util {

  /** Rust's `Option<T>`. */
  datatype Option<T> = None | Some(value: T)

  /** Rust's `Result<T, &str>`. */
  datatype Result<T> = Ok(value: T) | Err(error: string)

  /** Rust's `std::cmp::Ordering`. */
  datatype Ordering = Less | Equal | Greater {
    /** `Ordering::reverse`. */
    function Reverse(): Ordering {
      match this
      case Less => Greater
      case Equal => Equal
      case Greater => Less
    }
  }

  /** `a.cmp(&b)` on integers. */
  function Cmp(a: int, b: int): (o: Ordering)
    ensures o == Less <==> a < b
    ensures o == Equal <==> a == b
    ensures o == Greater <==> a > b
  {
    if a < b then Less else if a == b then Equal else Greater
  }

  /** The sum of a sequence, folded from the left as the source's loops and `sum()` do. */
  function Sum(s: seq<int>): int
  {
    if s == [] then 0 else Sum(s[..|s| - 1]) + s[|s| - 1]
  }

  /** The product of a sequence, folded from the left (`product()`, `fold(1, mul)`). */
  function Product(s: seq<int>): int
  {
    if s == [] then 1 else Product(s[..|s| - 1]) * s[|s| - 1]
  }

  function Max(a: int, b: int): int { if a < b then b else a }

  function Min(a: int, b: int): int { if a < b then a else b }

  lemma {:induction false} SumAppend(s: seq<int>, t: seq<int>)
    ensures Sum(s + t) == Sum(s) + Sum(t)
    decreases |t|
  {
    if t == [] {
      assert s + t == s;
    } else {
      assert (s + t)[..|s + t| - 1] == s + t[..|t| - 1];
      SumAppend(s, t[..|t| - 1]);
    }
  }

  lemma {:induction false} SumNonNegative(s: seq<int>)
    requires forall i | 0 <= i < |s| :: s[i] >= 0
    ensures Sum(s) >= 0
    decreases |s|
  {
    if s != [] {
      SumNonNegative(s[..|s| - 1]);
    }
  }

  lemma {:induction false} SumAtLeastElement(s: seq<int>, i: nat)
    requires forall j | 0 <= j < |s| :: s[j] >= 0
    requires i < |s|
    ensures Sum(s) >= s[i]
    decreases |s|
  {
    SumNonNegative(s[..|s| - 1]);
    if i < |s| - 1 {
      SumAtLeastElement(s[..|s| - 1], i);
    }
  }

  /** Quotient and remainder are the only ones: `x == b * q + r` with `0 <= r < b` fixes both. */
  lemma DivModUnique(x: int, b: int, q: int, r: int)
    requires b > 0 && 0 <= r < b && x == b * q + r
    ensures x / b == q && x % b == r
  {
    var d := q - x / b;
    assert b * d == x % b - r by {
      assert x == b * (x / b) + x % b;
      assert b * q - b * (x / b) == b * d;
    }
    if d > 0 {
      assert b * d == b * (d - 1) + b;
      MulNonNegative(b, d - 1);
    } else if d < 0 {
      assert b * (-d) == b * (-d - 1) + b;
      MulNonNegative(b, -d - 1);
    }
  }

  lemma MulNonNegative(a: int, b: int)
    requires a >= 0 && b >= 0
    ensures a * b >= 0
  {
  }
}
