/** Day 13: pairs of packets, each a nested list of integers, compared element by element; an
    integer compared with a list is first wrapped in a one-element list. */
module Day13 {
  import opened Util

  /** A JSON value as `compare_packets` sees it: an integer, an array, or any other kind, which only
      ever reaches the panic. `Int` stands for a number `is_i64` accepts; a float, or an integer
      outside the `i64` range, is `Other`. */
  datatype Value = Int(n: int) | List(items: seq<Value>) | Other

  /** The array a value stands for once integers are wrapped (`json!([p])`); an array is itself. */
  function AsList(p: Value): (r: seq<Value>)
    requires !p.Other?
    ensures p.Int? ==> r == [p]
    ensures p.List? ==> r == p.items
  {
    if p.Int? then [p] else p.items
  }

  /** `compare_packets`; `None` where it panics, on a JSON value that is neither integer nor array. */
  function Compare(p1: Value, p2: Value): Option<Ordering>
    decreases p1, p2, 1
  {
    if p1.Int? && p2.Int? then Some(Cmp(p1.n, p2.n))
    else if p1.Other? || p2.Other? then None
    else CompareFrom(p1, p2, 0)
  }

  /** The loop over the two arrays from position `i` on: a first array that runs out decides by
      the lengths, a second one that runs out first makes the first `Greater`, and otherwise the
      first unequal pair of elements decides. */
  function CompareFrom(p1: Value, p2: Value, i: nat): Option<Ordering>
    requires !p1.Other? && !p2.Other? && !(p1.Int? && p2.Int?) && i <= |AsList(p1)|
    decreases p1, p2, 0, |AsList(p1)| - i
  {
    var a, b := AsList(p1), AsList(p2);
    if i == |a| then Some(Cmp(|a|, |b|))
    else if |b| <= i then Some(Greater)
    else
      match Compare(a[i], b[i])
      case Some(Equal) => CompareFrom(p1, p2, i + 1)
      case r => r
  }

  /** A packet: integers and arrays all the way down. */
  ghost predicate Wf(p: Value)
    decreases p
  {
    match p
    case Int(_) => true
    case List(items) => forall i | 0 <= i < |items| :: Wf(items[i])
    case Other => false
  }

  /** The reverse of an outcome; a panic stays a panic. */
  function Reversed(o: Option<Ordering>): Option<Ordering>
  {
    match o
    case Some(x) => Some(x.Reverse())
    case None => None
  }

  // ---------------------------------------------------------------------------------------------
  // What the comparison promises

  /** Two packets always compare: the panic needs a value of another JSON kind. */
  lemma {:induction false} CompareDefined(p1: Value, p2: Value)
    requires Wf(p1) && Wf(p2)
    ensures Compare(p1, p2).Some?
    decreases p1, p2, 1
  {
    if !(p1.Int? && p2.Int?) {
      CompareFromDefined(p1, p2, 0);
    }
  }

  lemma {:induction false} CompareFromDefined(p1: Value, p2: Value, i: nat)
    requires Wf(p1) && Wf(p2) && !(p1.Int? && p2.Int?) && i <= |AsList(p1)|
    ensures CompareFrom(p1, p2, i).Some?
    decreases p1, p2, 0, |AsList(p1)| - i
  {
    var a, b := AsList(p1), AsList(p2);
    if i < |a| && i < |b| {
      assert Wf(a[i]) && Wf(b[i]);
      CompareDefined(a[i], b[i]);
      if Compare(a[i], b[i]) == Some(Equal) {
        CompareFromDefined(p1, p2, i + 1);
      }
    }
  }

  /** A packet equals itself, as the `PartialEq` impl needs. */
  lemma {:induction false} CompareReflexive(p: Value)
    requires Wf(p)
    ensures Compare(p, p) == Some(Equal)
    decreases p, p, 1
  {
    if p.List? {
      CompareFromReflexive(p, 0);
    }
  }

  lemma {:induction false} CompareFromReflexive(p: Value, i: nat)
    requires Wf(p) && p.List? && i <= |p.items|
    ensures CompareFrom(p, p, i) == Some(Equal)
    decreases p, p, 0, |p.items| - i
  {
    if i < |p.items| {
      assert Wf(p.items[i]);
      CompareReflexive(p.items[i]);
      CompareFromReflexive(p, i + 1);
    }
  }

  /** Swapping the packets reverses the outcome, panics included: `Ord` and `PartialOrd` agree in
      both directions. */
  lemma {:induction false} CompareAntisymmetric(p1: Value, p2: Value)
    ensures Compare(p2, p1) == Reversed(Compare(p1, p2))
    decreases p1, p2, 1
  {
    if !(p1.Int? && p2.Int?) && !p1.Other? && !p2.Other? {
      CompareFromAntisymmetric(p1, p2, 0);
    }
  }

  lemma {:induction false} CompareFromAntisymmetric(p1: Value, p2: Value, i: nat)
    requires !p1.Other? && !p2.Other? && !(p1.Int? && p2.Int?)
    requires i <= |AsList(p1)| && i <= |AsList(p2)|
    ensures CompareFrom(p2, p1, i) == Reversed(CompareFrom(p1, p2, i))
    decreases p1, p2, 0, |AsList(p1)| - i
  {
    var a, b := AsList(p1), AsList(p2);
    if i < |a| && i < |b| {
      CompareAntisymmetric(a[i], b[i]);
      if Compare(a[i], b[i]) == Some(Equal) {
        CompareFromAntisymmetric(p1, p2, i + 1);
      }
    }
  }

  /** The loop depends on the values only through the arrays they stand for. */
  lemma {:induction false} CompareFromLists(p1: Value, p2: Value, q1: Value, q2: Value, i: nat)
    requires !p1.Other? && !p2.Other? && !(p1.Int? && p2.Int?)
    requires !q1.Other? && !q2.Other? && !(q1.Int? && q2.Int?)
    requires AsList(p1) == AsList(q1) && AsList(p2) == AsList(q2) && i <= |AsList(p1)|
    ensures CompareFrom(p1, p2, i) == CompareFrom(q1, q2, i)
    decreases |AsList(p1)| - i
  {
    var a, b := AsList(p1), AsList(p2);
    if i < |a| && i < |b| && Compare(a[i], b[i]) == Some(Equal) {
      CompareFromLists(p1, p2, q1, q2, i + 1);
    }
  }

  /** An integer compared with an array is compared as the one-element array holding it. */
  lemma IntegerPromoted(n: int, v: Value)
    requires v.List?
    ensures Compare(Int(n), v) == Compare(List([Int(n)]), v)
    ensures Compare(v, Int(n)) == Compare(v, List([Int(n)]))
  {
    CompareFromLists(Int(n), v, List([Int(n)]), v, 0);
    CompareFromLists(v, Int(n), v, List([Int(n)]), 0);
  }

  /** Integers compare by value. */
  lemma IntegersByValue(m: int, n: int)
    ensures Compare(Int(m), Int(n)) == Some(Less) <==> m < n
    ensures Compare(Int(m), Int(n)) == Some(Equal) <==> m == n
    ensures Compare(Int(m), Int(n)) == Some(Greater) <==> m > n
  {
  }

  /** Arrays compare lexicographically: equal elements up to position `k`, then the first unequal
      pair of elements decides. */
  lemma {:induction false} FirstDifferenceDecides(a: seq<Value>, b: seq<Value>, k: nat, i: nat)
    requires i <= k < |a| && k < |b|
    requires forall j | i <= j < k :: Compare(a[j], b[j]) == Some(Equal)
    requires Compare(a[k], b[k]) != Some(Equal)
    ensures CompareFrom(List(a), List(b), i) == Compare(a[k], b[k])
    decreases k - i
  {
    if i < k {
      FirstDifferenceDecides(a, b, k, i + 1);
    }
  }

  /** An array that is a proper prefix of another comes first. */
  lemma {:induction false} PrefixComesFirst(a: seq<Value>, c: seq<Value>, i: nat)
    requires forall j | 0 <= j < |a| :: Wf(a[j])
    requires c != [] && i <= |a|
    ensures CompareFrom(List(a), List(a + c), i) == Some(Less)
    decreases |a| - i
  {
    if i < |a| {
      assert (a + c)[i] == a[i];
      CompareReflexive(a[i]);
      PrefixComesFirst(a, c, i + 1);
    }
  }

  lemma ProperPrefixLess(a: seq<Value>, c: seq<Value>)
    requires forall j | 0 <= j < |a| :: Wf(a[j])
    requires c != []
    ensures Compare(List(a), List(a + c)) == Some(Less)
  {
    PrefixComesFirst(a, c, 0);
  }

  /** A value of another JSON kind makes the comparison panic. */
  lemma OtherPanics(p: Value)
    ensures Compare(p, Other) == None && Compare(Other, p) == None
  {
  }

  // ---------------------------------------------------------------------------------------------
  // The comparison is a total preorder, as `Ord` requires and `sort` relies on

  /** The number of values a packet is built from. */
  function Size(p: Value): nat
    decreases p
  {
    match p
    case List(items) =>
      var sizes := seq(|items|, i requires 0 <= i < |items| => Size(items[i]) as int);
      SumNonNegative(sizes);
      1 + Sum(sizes)
    case _ => 1
  }

  /** An element of the array a value stands for is no bigger than the value, and smaller when
      the value is an array. */
  lemma ElementSize(p: Value, i: nat)
    requires !p.Other? && i < |AsList(p)|
    ensures Size(AsList(p)[i]) <= Size(p)
    ensures p.List? ==> Size(AsList(p)[i]) < Size(p)
  {
    if p.List? {
      var sizes := seq(|p.items|, k requires 0 <= k < |p.items| => Size(p.items[k]) as int);
      SumAtLeastElement(sizes, i);
    }
  }

  /** Lexicographic comparison of two arrays from position `i` on, elements by `Compare`. */
  function LexFrom(a: seq<Value>, b: seq<Value>, i: nat): Option<Ordering>
    requires i <= |a|
    decreases |a| - i
  {
    if i == |a| then Some(Cmp(|a|, |b|))
    else if |b| <= i then Some(Greater)
    else
      match Compare(a[i], b[i])
      case Some(Equal) => LexFrom(a, b, i + 1)
      case r => r
  }

  /** Every comparison, two integers included, is the lexicographic one of the arrays the values
      stand for. */
  lemma CompareIsLex(p1: Value, p2: Value)
    requires !p1.Other? && !p2.Other?
    ensures Compare(p1, p2) == LexFrom(AsList(p1), AsList(p2), 0)
  {
    if !(p1.Int? && p2.Int?) {
      CompareFromIsLex(p1, p2, 0);
    }
  }

  lemma {:induction false} CompareFromIsLex(p1: Value, p2: Value, i: nat)
    requires !p1.Other? && !p2.Other? && !(p1.Int? && p2.Int?) && i <= |AsList(p1)|
    ensures CompareFrom(p1, p2, i) == LexFrom(AsList(p1), AsList(p2), i)
    decreases |AsList(p1)| - i
  {
    var a, b := AsList(p1), AsList(p2);
    if i < |a| && i < |b| && Compare(a[i], b[i]) == Some(Equal) {
      CompareFromIsLex(p1, p2, i + 1);
    }
  }

  /** Chaining two outcomes: an `Equal` step changes nothing, and two steps the same way go that
      way. */
  ghost predicate Chains(ab: Option<Ordering>, bc: Option<Ordering>, ac: Option<Ordering>)
  {
    && (ab == Some(Equal) ==> ac == bc)
    && (bc == Some(Equal) ==> ac == ab)
    && (ab == bc ==> ac == ab)
  }

  /** Transitivity of `compare_packets` on packets. */
  lemma {:induction false} CompareTransitive(a: Value, b: Value, c: Value)
    requires Wf(a) && Wf(b) && Wf(c)
    ensures Chains(Compare(a, b), Compare(b, c), Compare(a, c))
    decreases Size(a) + Size(b) + Size(c), 1
  {
    if !(a.Int? && b.Int? && c.Int?) {
      CompareIsLex(a, b);
      CompareIsLex(b, c);
      CompareIsLex(a, c);
      LexTransitive(a, b, c, 0);
    }
  }

  lemma {:induction false} LexTransitive(a: Value, b: Value, c: Value, i: nat)
    requires Wf(a) && Wf(b) && Wf(c) && !(a.Int? && b.Int? && c.Int?)
    requires i <= |AsList(a)| && i <= |AsList(b)| && i <= |AsList(c)|
    ensures Chains(LexFrom(AsList(a), AsList(b), i), LexFrom(AsList(b), AsList(c), i), LexFrom(AsList(a), AsList(c), i))
    decreases Size(a) + Size(b) + Size(c), 0, |AsList(a)| - i
  {
    var x, y, z := AsList(a), AsList(b), AsList(c);
    if i < |x| && i < |y| && i < |z| {
      ElementSize(a, i);
      ElementSize(b, i);
      ElementSize(c, i);
      assert Wf(x[i]) && Wf(y[i]) && Wf(z[i]);
      CompareTransitive(x[i], y[i], z[i]);
      if Compare(x[i], y[i]) == Some(Equal) && Compare(y[i], z[i]) == Some(Equal) {
        LexTransitive(a, b, c, i + 1);
      }
    }
  }

  // ---------------------------------------------------------------------------------------------
  // `test_compare_packets`

  lemma ExampleOne()
    ensures Compare(List([Int(1), Int(1), Int(3), Int(1), Int(1)]), List([Int(1), Int(1), Int(5), Int(1), Int(1)])) == Some(Less)
  {
  }

  lemma ExampleTwo()
    ensures Compare(List([List([Int(1)]), List([Int(2), Int(3), Int(4)])]), List([List([Int(1)]), Int(4)])) == Some(Less)
  {
  }

  lemma ExampleThree()
    ensures Compare(List([Int(9)]), List([List([Int(8), Int(7), Int(6)])])) == Some(Greater)
  {
  }

  lemma ExampleFour()
    ensures Compare(List([List([Int(4), Int(4)]), Int(4), Int(4)]), List([List([Int(4), Int(4)]), Int(4), Int(4), Int(4)])) == Some(Less)
  {
  }

  lemma ExampleFive()
    ensures Compare(List([Int(7), Int(7), Int(7), Int(7)]), List([Int(7), Int(7), Int(7)])) == Some(Greater)
  {
  }

  lemma ExampleSix()
    ensures Compare(List([]), List([Int(3)])) == Some(Less)
  {
  }

  lemma ExampleSeven()
    ensures Compare(List([List([List([])])]), List([List([])])) == Some(Greater)
  {
  }

  /** `[1,[2,[3,[4,[5,6,last]]]],8,9]`. */
  function Nested(last: int): Value
  {
    List([Int(1), List([Int(2), List([Int(3), List([Int(4), List([Int(5), Int(6), Int(last)])])])]), Int(8), Int(9)])
  }

  /** Arrays that agree on an integer first element are decided by their second elements, when
      those differ. */
  lemma SecondDecides(a: seq<Value>, b: seq<Value>)
    requires |a| >= 2 && |b| >= 2 && a[0].Int? && a[0] == b[0] && Compare(a[1], b[1]) != Some(Equal)
    ensures Compare(List(a), List(b)) == Compare(a[1], b[1])
  {
    FirstDifferenceDecides(a, b, 1, 0);
  }

  lemma ExampleEight()
    ensures Compare(Nested(7), Nested(0)) == Some(Greater)
  {
    var u5, v5 := List([Int(5), Int(6), Int(7)]), List([Int(5), Int(6), Int(0)]);
    assert Compare(u5, v5) == Some(Greater);
    var u4, v4 := List([Int(4), u5]), List([Int(4), v5]);
    SecondDecides([Int(4), u5], [Int(4), v5]);
    var u3, v3 := List([Int(3), u4]), List([Int(3), v4]);
    SecondDecides([Int(3), u4], [Int(3), v4]);
    var u2, v2 := List([Int(2), u3]), List([Int(2), v3]);
    SecondDecides([Int(2), u3], [Int(2), v3]);
    assert Nested(7) == List([Int(1), u2, Int(8), Int(9)]);
    assert Nested(0) == List([Int(1), v2, Int(8), Int(9)]);
    SecondDecides([Int(1), u2, Int(8), Int(9)], [Int(1), v2, Int(8), Int(9)]);
  }
  // ---------------------------------------------------------------------------------------------
  // `part_1`

  /** A line of the file: blank, or the JSON value `serde_json` reads from it. */
  datatype Line = Blank | Json(value: Value)

  /** The values of the non-blank lines, in order (`filter(|s| s.len() > 0)`). */
  function Values(lines: seq<Line>): (vs: seq<Value>)
    ensures |vs| <= |lines|
  {
    if lines == [] then []
    else Values(lines[..|lines| - 1]) + (if lines[|lines| - 1].Blank? then [] else [lines[|lines| - 1].value])
  }

  /** The number of lines `take(3)` takes. */
  function Take(lines: seq<Line>): nat
  {
    if |lines| < 3 then |lines| else 3
  }

  predicate AllArrays(vs: seq<Value>)
  {
    forall k | 0 <= k < |vs| :: vs[k].List?
  }

  /** What the loop of `part_1` adds up from `lines` on, the next pair being number `i`: it takes
      three lines at a time and compares the first two packets among them, adding `i` unless they
      are `Greater`, until a group holds fewer than two packets. `None` where the source panics:
      a packet that is not an array (`assert!(j.is_array())`), or a comparison that panics. */
  function Score(lines: seq<Line>, i: nat): Option<nat>
    decreases |lines|
  {
    var pair := Values(lines[..Take(lines)]);
    if !AllArrays(pair) then None
    else if |pair| < 2 then Some(0)
    else
      match (Compare(pair[0], pair[1]), Score(lines[Take(lines)..], i + 1))
      case (Some(o), Some(rest)) => Some((if o == Greater then 0 else i) + rest)
      case _ => None
  }

  /** `total` added to an outcome that may be a panic. */
  function Plus(total: nat, r: Option<nat>): Option<nat>
  {
    match r
    case Some(n) => Some(total + n)
    case None => None
  }

  /** `part_1`. */
  method Part1(lines: seq<Line>) returns (result: Option<nat>)
    ensures result == Score(lines, 1)
  {
    var rest := lines;
    var i := 1;
    var total := 0;
    while true
      invariant Score(lines, 1) == Plus(total, Score(rest, i))
      decreases |rest|
    {
      var n := Take(rest);
      var pair := Values(rest[..n]);
      if !AllArrays(pair) {
        return None;
      }
      if |pair| < 2 {
        return Some(total);
      }
      var o := Compare(pair[0], pair[1]);
      if o.None? {
        assert Score(rest, i) == None;
        return None;
      }
      if o.value != Greater {
        total := total + i;
      }
      rest, i := rest[n..], i + 1;
    }
  }

  /** The file for a list of pairs: each pair on two lines, a blank line between pairs. */
  function PairLines(pairs: seq<(Value, Value)>): seq<Line>
  {
    if pairs == [] then []
    else if |pairs| == 1 then [Json(pairs[0].0), Json(pairs[0].1)]
    else [Json(pairs[0].0), Json(pairs[0].1), Blank] + PairLines(pairs[1..])
  }

  /** Pairs of arrays built from integers and arrays. */
  ghost predicate ArrayPairs(pairs: seq<(Value, Value)>)
  {
    forall k | 0 <= k < |pairs| :: pairs[k].0.List? && pairs[k].1.List? && Wf(pairs[k].0) && Wf(pairs[k].1)
  }

  /** The puzzle's answer: the sum of the numbers, counting from `i`, of the pairs that are in the
      right order (not `Greater`). */
  function RightOrderSum(pairs: seq<(Value, Value)>, i: nat): int
  {
    Sum(RightOrderTerms(pairs, i))
  }

  /** Pair number `i + k` where pair `k` is in the right order, else 0. */
  function RightOrderTerms(pairs: seq<(Value, Value)>, i: nat): seq<int>
  {
    seq(|pairs|, k requires 0 <= k < |pairs| => if Compare(pairs[k].0, pairs[k].1) == Some(Greater) then 0 else i + k)
  }

  lemma RightOrderSumStep(pairs: seq<(Value, Value)>, i: nat)
    requires pairs != []
    ensures RightOrderSum(pairs, i)
            == (if Compare(pairs[0].0, pairs[0].1) == Some(Greater) then 0 else i) + RightOrderSum(pairs[1..], i + 1)
  {
    var terms, rest := RightOrderTerms(pairs, i), pairs[1..];
    var later := RightOrderTerms(rest, i + 1);
    assert terms == [terms[0]] + later;
    SumAppend([terms[0]], later);
    assert Sum([terms[0]]) == terms[0] by {
      assert [terms[0]][..0] == [];
    }
  }

  /** The first group `take(3)` reads from the file holds the first pair, and the rest of the file
      is the file for the other pairs. */
  lemma FirstGroup(pairs: seq<(Value, Value)>)
    requires pairs != []
    ensures Values(PairLines(pairs)[..Take(PairLines(pairs))]) == [pairs[0].0, pairs[0].1]
    ensures PairLines(pairs)[Take(PairLines(pairs))..] == PairLines(pairs[1..])
  {
    var (a, b) := pairs[0];
    var lines := PairLines(pairs);
    assert Values([Json(a)]) == [a] by {
      assert [Json(a)][..0] == [];
    }
    assert Values([Json(a), Json(b)]) == [a, b] by {
      assert [Json(a), Json(b)][..1] == [Json(a)];
    }
    if |pairs| > 1 {
      assert lines[..3] == [Json(a), Json(b), Blank];
      assert [Json(a), Json(b), Blank][..2] == [Json(a), Json(b)];
    } else {
      assert lines[..2] == [Json(a), Json(b)];
    }
  }

  /** On a well-formed file `part_1` is the sum of the numbers of the pairs in the right order. */
  lemma {:induction false} ScoreOfPairs(pairs: seq<(Value, Value)>, i: nat)
    requires ArrayPairs(pairs)
    ensures Score(PairLines(pairs), i) == Some(RightOrderSum(pairs, i))
    decreases |pairs|
  {
    if pairs == [] {
      assert Values([]) == [];
    } else {
      var (a, b) := pairs[0];
      var lines, rest := PairLines(pairs), pairs[1..];
      FirstGroup(pairs);
      assert AllArrays(Values(lines[..Take(lines)]));
      CompareDefined(a, b);
      assert ArrayPairs(rest) by {
        forall k | 0 <= k < |rest| ensures rest[k] == pairs[k + 1] { }
      }
      ScoreOfPairs(rest, i + 1);
      RightOrderSumStep(pairs, i);
    }
  }
  /** The pairs of `test_compare_packets`, which are also the eight pairs of the puzzle's example. */
  function ExamplePairs(): seq<(Value, Value)>
  {
    [ (List([Int(1), Int(1), Int(3), Int(1), Int(1)]), List([Int(1), Int(1), Int(5), Int(1), Int(1)])),
      (List([List([Int(1)]), List([Int(2), Int(3), Int(4)])]), List([List([Int(1)]), Int(4)])),
      (List([Int(9)]), List([List([Int(8), Int(7), Int(6)])])),
      (List([List([Int(4), Int(4)]), Int(4), Int(4)]), List([List([Int(4), Int(4)]), Int(4), Int(4), Int(4)])),
      (List([Int(7), Int(7), Int(7), Int(7)]), List([Int(7), Int(7), Int(7)])),
      (List([]), List([Int(3)])),
      (List([List([List([])])]), List([List([])])),
      (Nested(7), Nested(0)) ]
  }

  lemma NestedWf(last: int)
    ensures Wf(Nested(last))
  {
    var u5 := List([Int(5), Int(6), Int(last)]);
    assert Wf(u5);
    var u4 := List([Int(4), u5]);
    assert Wf(u4);
    var u3 := List([Int(3), u4]);
    assert Wf(u3);
    var u2 := List([Int(2), u3]);
    assert Wf(u2);
    assert Nested(last) == List([Int(1), u2, Int(8), Int(9)]);
  }

  lemma ExamplePairsWf()
    ensures ArrayPairs(ExamplePairs())
  {
    assert Wf(List([Int(2), Int(3), Int(4)])) && Wf(List([Int(8), Int(7), Int(6)])) && Wf(List([Int(4), Int(4)]));
    assert Wf(List([List([])]));
    NestedWf(7);
    NestedWf(0);
  }

  lemma ExampleTermsOne()
    ensures RightOrderTerms(ExamplePairs(), 1)[0] == 1 && RightOrderTerms(ExamplePairs(), 1)[1] == 2
  {
    ExampleOne();
    ExampleTwo();
  }

  lemma ExampleTermsTwo()
    ensures RightOrderTerms(ExamplePairs(), 1)[2] == 0 && RightOrderTerms(ExamplePairs(), 1)[3] == 4
  {
    ExampleThree();
    ExampleFour();
  }

  lemma ExampleTermsThree()
    ensures RightOrderTerms(ExamplePairs(), 1)[4] == 0 && RightOrderTerms(ExamplePairs(), 1)[5] == 6
  {
    ExampleFive();
    ExampleSix();
  }

  lemma ExampleTermsFour()
    ensures RightOrderTerms(ExamplePairs(), 1)[6] == 0 && RightOrderTerms(ExamplePairs(), 1)[7] == 0
  {
    ExampleSeven();
    ExampleEight();
  }

  /** The pairs in the right order are the first, second, fourth and sixth: 1 + 2 + 4 + 6. */
  lemma ExampleRightOrder()
    ensures RightOrderSum(ExamplePairs(), 1) == 13
  {
    ExampleTermsOne();
    ExampleTermsTwo();
    ExampleTermsThree();
    ExampleTermsFour();
    SumOfExampleTerms(RightOrderTerms(ExamplePairs(), 1));
  }

  lemma SumOfExampleTerms(t: seq<int>)
    requires |t| == 8 && t[0] == 1 && t[1] == 2 && t[2] == 0 && t[3] == 4
    requires t[4] == 0 && t[5] == 6 && t[6] == 0 && t[7] == 0
    ensures Sum(t) == 13
  {
    assert Sum(t[..1]) == 1 by {
      assert t[..1][..0] == [];
    }
    assert Sum(t[..2]) == 3 by {
      assert t[..2][..1] == t[..1];
    }
    assert Sum(t[..3]) == 3 by {
      assert t[..3][..2] == t[..2];
    }
    assert Sum(t[..4]) == 7 by {
      assert t[..4][..3] == t[..3];
    }
    assert Sum(t[..5]) == 7 by {
      assert t[..5][..4] == t[..4];
    }
    assert Sum(t[..6]) == 13 by {
      assert t[..6][..5] == t[..5];
    }
    assert Sum(t[..7]) == 13 by {
      assert t[..7][..6] == t[..6];
    }
    assert t[..|t| - 1] == t[..7];
  }

  /** `test_part_1` on the example: 13. */
  lemma ExamplePart1()
    ensures Score(PairLines(ExamplePairs()), 1) == Some(13)
  {
    ExamplePairsWf();
    ScoreOfPairs(ExamplePairs(), 1);
    ExampleRightOrder();
  }
  // ---------------------------------------------------------------------------------------------
  // `part_2`

  /** `[[n]]`; the divider packets are `[[2]]` and `[[6]]`. */
  function Divider(n: int): Value
  {
    List([List([Int(n)])])
  }

  /** The packets `part_2` sorts: every non-blank line, then the two dividers. */
  function AllPackets(lines: seq<Line>): seq<Value>
  {
    Values(lines) + [Divider(2), Divider(6)]
  }

  ghost predicate AllWf(s: seq<Value>)
  {
    forall i | 0 <= i < |s| :: Wf(s[i])
  }

  /** `p` may come before `q`: it is `Less` or `Equal`. */
  predicate NotAfter(p: Value, q: Value)
  {
    Compare(p, q) == Some(Less) || Compare(p, q) == Some(Equal)
  }

  /** No neighbours out of order: what `sort` leaves behind. */
  ghost predicate Ordered(s: seq<Value>)
  {
    forall i | 0 < i < |s| :: NotAfter(s[i - 1], s[i])
  }

  /** Inserting `x` after the elements not `Greater` than it and before one that is keeps the
      sequence ordered. */
  lemma InsertOrdered(s: seq<Value>, j: nat, x: Value)
    requires Ordered(s) && AllWf(s) && Wf(x) && j <= |s|
    requires j > 0 ==> Compare(s[j - 1], x) != Some(Greater)
    requires j < |s| ==> Compare(s[j], x) == Some(Greater)
    ensures Ordered(s[..j] + [x] + s[j..]) && AllWf(s[..j] + [x] + s[j..])
  {
    var t := s[..j] + [x] + s[j..];
    if j > 0 {
      CompareDefined(s[j - 1], x);
    }
    if j < |s| {
      CompareAntisymmetric(s[j], x);
    }
    forall i | 0 < i < |t| ensures NotAfter(t[i - 1], t[i]) {
      if i < j {
        assert NotAfter(s[i - 1], s[i]);
        assert t[i - 1] == s[i - 1] && t[i] == s[i];
      } else if i == j {
        assert t[i - 1] == s[j - 1] && t[i] == x;
        match Compare(s[j - 1], x).value
        case Less =>
        case Equal =>
        case Greater =>
      } else if i == j + 1 {
        assert t[i - 1] == x && t[i] == s[j];
        assert Compare(x, s[j]) == Some(Less);
      } else {
        assert t[i - 1] == s[i - 2] && t[i] == s[i - 1];
        assert NotAfter(s[i - 2], s[i - 1]);
      }
    }
    forall i | 0 <= i < |t| ensures Wf(t[i]) {
      if i < j {
        assert t[i] == s[i];
      } else if i > j {
        assert t[i] == s[i - 1];
      }
    }
  }

  /** One step of the insertion sort: `x` goes after the last packet not `Greater` than it. */
  method Insert(sorted: seq<Value>, x: Value) returns (r: seq<Value>)
    requires Ordered(sorted) && AllWf(sorted) && Wf(x)
    ensures multiset(r) == multiset(sorted) + multiset{x} && Ordered(r) && AllWf(r)
  {
    var j := |sorted|;
    while j > 0 && Compare(sorted[j - 1], x) == Some(Greater)
      invariant 0 <= j <= |sorted|
      invariant j < |sorted| ==> Compare(sorted[j], x) == Some(Greater)
    {
      j := j - 1;
    }
    InsertOrdered(sorted, j, x);
    InsertAdds(sorted, j, x);
    r := sorted[..j] + [x] + sorted[j..];
  }

  /** Putting `x` anywhere into `s` adds it to the packets of `s`. */
  lemma InsertAdds(s: seq<Value>, j: nat, x: Value)
    requires j <= |s|
    ensures multiset(s[..j] + [x] + s[j..]) == multiset(s) + multiset{x}
  {
    assert s == s[..j] + s[j..];
  }

  /** `packets.sort()`: an insertion sort, stable like Rust's, that leaves a permutation of the
      packets with no neighbours out of order. */
  method Sort(packets: seq<Value>) returns (sorted: seq<Value>)
    requires AllWf(packets)
    ensures multiset(sorted) == multiset(packets) && Ordered(sorted) && AllWf(sorted)
  {
    sorted := [];
    for i := 0 to |packets|
      invariant multiset(sorted) == multiset(packets[..i]) && Ordered(sorted) && AllWf(sorted)
    {
      assert packets[..i + 1] == packets[..i] + [packets[i]];
      sorted := Insert(sorted, packets[i]);
    }
    assert packets[..|packets|] == packets;
  }

  /** Whether `p` equals a divider (`p == divider_packets[0] || p == divider_packets[1]`, which
      the `PartialEq` impl decides by `compare_packets`). */
  predicate IsDivider(p: Value)
  {
    Compare(p, Divider(2)) == Some(Equal) || Compare(p, Divider(6)) == Some(Equal)
  }

  /** The 1-based positions of the packets of `s` that equal a divider, in order. */
  function DividerPositions(s: seq<Value>): seq<int>
  {
    if s == [] then []
    else DividerPositions(s[..|s| - 1]) + (if IsDivider(s[|s| - 1]) then [|s|] else [])
  }

  /** The numbers from `lo` up to but not including `hi`. */
  function Range(lo: int, hi: int): seq<int>
    decreases hi - lo
  {
    if hi <= lo then [] else Range(lo, hi - 1) + [hi - 1]
  }

  /** How many packets of `s` compare as `o` with `d`. */
  function Count(s: seq<Value>, d: Value, o: Ordering): nat
  {
    if s == [] then 0
    else Count(s[..|s| - 1], d, o) + (if Compare(s[|s| - 1], d) == Some(o) then 1 else 0)
  }

  /** The 1-based positions the packets equal to a divider take in any sorted order of `packets`,
      by counting alone: a divider's equals sit together, right after the packets `Less` than it. */
  function DividerSlots(packets: seq<Value>): seq<int>
  {
    var less2, same2 := Count(packets, Divider(2), Less), Count(packets, Divider(2), Equal);
    var less6, same6 := Count(packets, Divider(6), Less), Count(packets, Divider(6), Equal);
    Range(less2 + 1, less2 + same2 + 1) + Range(less6 + 1, less6 + same6 + 1)
  }

  /** The answer `part_2` gives on `packets`: the product of those positions. */
  function DividerProduct(packets: seq<Value>): int
  {
    Product(DividerSlots(packets))
  }

  /** `part_2`: the product of the positions of the dividers after sorting. */
  method Part2(lines: seq<Line>) returns (product: int)
    requires AllWf(Values(lines))
    ensures product == DividerProduct(AllPackets(lines))
  {
    var packets := AllPackets(lines);
    assert AllWf(packets) by {
      assert Wf(List([Int(2)])) && Wf(List([Int(6)]));
      forall i | 0 <= i < |packets| ensures Wf(packets[i]) {
        if i < |Values(lines)| {
          assert packets[i] == Values(lines)[i];
        }
      }
    }
    var sorted := Sort(packets);
    product := Product(DividerPositions(sorted));
    SortedDividers(sorted, packets);
  }

  // ---------------------------------------------------------------------------------------------
  // The answer does not depend on how `sort` orders equal packets

  lemma {:induction false} CountAppend(s: seq<Value>, t: seq<Value>, d: Value, o: Ordering)
    ensures Count(s + t, d, o) == Count(s, d, o) + Count(t, d, o)
    decreases |t|
  {
    if t == [] {
      assert s + t == s;
    } else {
      assert (s + t)[..|s + t| - 1] == s + t[..|t| - 1];
      CountAppend(s, t[..|t| - 1], d, o);
    }
  }

  lemma CountSingle(x: Value, d: Value, o: Ordering)
    ensures Count([x], d, o) == if Compare(x, d) == Some(o) then 1 else 0
  {
    assert [x][..0] == [];
  }

  /** A packet that occurs in `t` sits at some position, and taking it out leaves the rest. */
  lemma FindIn(t: seq<Value>, x: Value) returns (p: nat)
    requires x in multiset(t)
    ensures p < |t| && t[p] == x
    ensures multiset(t[..p] + t[p + 1..]) == multiset(t) - multiset{x}
  {
    assert x in t;
    p :| 0 <= p < |t| && t[p] == x;
    assert t == t[..p] + [t[p]] + t[p + 1..];
  }

  /** Taking out the packet at `p` takes away its share of the count. */
  lemma CountRemoveAt(t: seq<Value>, p: nat, d: Value, o: Ordering)
    requires p < |t|
    ensures Count(t, d, o)
            == Count(t[..p] + t[p + 1..], d, o) + if Compare(t[p], d) == Some(o) then 1 else 0
  {
    assert t == t[..p] + [t[p]] + t[p + 1..];
    CountAppend(t[..p], [t[p]], d, o);
    CountAppend(t[..p] + [t[p]], t[p + 1..], d, o);
    CountAppend(t[..p], t[p + 1..], d, o);
    CountSingle(t[p], d, o);
  }

  /** Counts depend only on which packets there are, not on their order. */
  lemma {:induction false} CountPermutation(s: seq<Value>, t: seq<Value>, d: Value, o: Ordering)
    requires multiset(s) == multiset(t)
    ensures Count(s, d, o) == Count(t, d, o)
    decreases |s|
  {
    if s == [] {
      assert |t| == |multiset(t)| == 0;
    } else {
      var x := s[|s| - 1];
      var s' := s[..|s| - 1];
      assert multiset(s) == multiset(s') + multiset{x} by {
        assert s == s' + [x];
      }
      var p := FindIn(t, x);
      CountPermutation(s', t[..p] + t[p + 1..], d, o);
      CountRemoveAt(t, p, d, o);
    }
  }

  /** Every packet of `s` falls in exactly one count. */
  lemma {:induction false} CountsSplit(s: seq<Value>, d: Value)
    requires AllWf(s) && Wf(d)
    ensures Count(s, d, Less) + Count(s, d, Equal) + Count(s, d, Greater) == |s|
    decreases |s|
  {
    if s != [] {
      var s' := s[..|s| - 1];
      assert AllWf(s') by {
        forall i | 0 <= i < |s'| ensures Wf(s'[i]) {
          assert s'[i] == s[i];
        }
      }
      CompareDefined(s[|s| - 1], d);
      CountsSplit(s', d);
      match Compare(s[|s| - 1], d).value
      case Less =>
      case Equal =>
      case Greater =>
    }
  }

  /** No packet compares as `o`: the count is 0. */
  lemma {:induction false} CountNone(s: seq<Value>, d: Value, o: Ordering)
    requires forall i | 0 <= i < |s| :: Compare(s[i], d) != Some(o)
    ensures Count(s, d, o) == 0
    decreases |s|
  {
    if s != [] {
      CountNone(s[..|s| - 1], d, o);
    }
  }

  /** Transitivity across a whole ordered sequence: an earlier packet never comes after a later
      one. */
  lemma {:induction false} OrderedSorted(s: seq<Value>, i: nat, j: nat)
    requires Ordered(s) && AllWf(s) && i < j < |s|
    ensures NotAfter(s[i], s[j])
    decreases j - i
  {
    if i + 1 < j {
      OrderedSorted(s, i, j - 1);
      CompareTransitive(s[i], s[j - 1], s[j]);
    }
  }

  lemma PrefixOrdered(s: seq<Value>)
    requires Ordered(s) && AllWf(s) && s != []
    ensures Ordered(s[..|s| - 1]) && AllWf(s[..|s| - 1])
  {
    var s' := s[..|s| - 1];
    forall i | 0 <= i < |s'| ensures Wf(s'[i]) {
      assert s'[i] == s[i];
    }
    forall i | 0 < i < |s'| ensures NotAfter(s'[i - 1], s'[i]) {
      assert s'[i - 1] == s[i - 1] && s'[i] == s[i];
    }
  }

  /** When the last packet of an ordered sequence does not come after `d`, no packet before it
      is `Greater` than `d`, and when it is `Less`, none is `Equal` either. */
  lemma LastNotAfter(s: seq<Value>, d: Value)
    requires Ordered(s) && AllWf(s) && Wf(d) && s != [] && NotAfter(s[|s| - 1], d)
    ensures Count(s[..|s| - 1], d, Greater) == 0
    ensures Compare(s[|s| - 1], d) == Some(Less) ==> Count(s[..|s| - 1], d, Equal) == 0
  {
    var s', last := s[..|s| - 1], s[|s| - 1];
    forall p | 0 <= p < |s'|
      ensures NotAfter(s'[p], d)
      ensures Compare(last, d) == Some(Less) ==> Compare(s'[p], d) == Some(Less)
    {
      OrderedSorted(s, p, |s| - 1);
      CompareTransitive(s[p], last, d);
      assert s'[p] == s[p];
    }
    CountNone(s', d, Greater);
    if Compare(last, d) == Some(Less) {
      CountNone(s', d, Equal);
    }
  }

  /** In an ordered sequence the packets `Less` than `d` come first, then those `Equal` to it,
      then the rest. */
  lemma {:induction false} BandAt(s: seq<Value>, d: Value, p: nat)
    requires Ordered(s) && AllWf(s) && Wf(d) && p < |s|
    ensures Compare(s[p], d) == Some(Less) <==> p < Count(s, d, Less)
    ensures Compare(s[p], d) == Some(Equal)
            <==> Count(s, d, Less) <= p < Count(s, d, Less) + Count(s, d, Equal)
    decreases |s|
  {
    var n := |s|;
    var s', last := s[..n - 1], s[n - 1];
    PrefixOrdered(s);
    CountsSplit(s', d);
    CompareDefined(last, d);
    if p < n - 1 {
      assert s'[p] == s[p];
      BandAt(s', d, p);
      if NotAfter(last, d) {
        OrderedSorted(s, p, n - 1);
        CompareTransitive(s[p], last, d);
      }
    } else if NotAfter(last, d) {
      LastNotAfter(s, d);
    }
  }

  lemma Bands(s: seq<Value>, d: Value)
    requires Ordered(s) && AllWf(s) && Wf(d)
    ensures forall p | 0 <= p < |s| ::
              && (Compare(s[p], d) == Some(Less) <==> p < Count(s, d, Less))
              && (Compare(s[p], d) == Some(Equal)
                  <==> Count(s, d, Less) <= p < Count(s, d, Less) + Count(s, d, Equal))
  {
    forall p | 0 <= p < |s|
      ensures Compare(s[p], d) == Some(Less) <==> p < Count(s, d, Less)
      ensures Compare(s[p], d) == Some(Equal)
              <==> Count(s, d, Less) <= p < Count(s, d, Less) + Count(s, d, Equal)
    {
      BandAt(s, d, p);
    }
  }

  /** Filtering a sequence whose dividers fill two runs of positions gives those runs. */
  lemma {:induction false} RunsFiltered(s: seq<Value>, a: nat, b: nat, c: nat, e: nat, n: nat)
    requires a <= b <= c <= e && n <= |s|
    requires forall p | 0 <= p < |s| :: IsDivider(s[p]) <==> (a <= p < b || c <= p < e)
    ensures DividerPositions(s[..n])
            == Range(a + 1, (if b < n then b else n) + 1) + Range(c + 1, (if e < n then e else n) + 1)
  {
    if n > 0 {
      assert s[..n][..n - 1] == s[..n - 1];
      RunsFiltered(s, a, b, c, e, n - 1);
    }
  }

  /** In an ordered sequence the packets equal to `[[2]]` and those equal to `[[6]]` fill two
      runs, in that order, each right after the packets `Less` than its divider. */
  lemma DividerRuns(t: seq<Value>)
    requires Ordered(t) && AllWf(t)
    ensures Count(t, Divider(2), Less) + Count(t, Divider(2), Equal) <= Count(t, Divider(6), Less)
    ensures Count(t, Divider(6), Less) + Count(t, Divider(6), Equal) <= |t|
    ensures forall p | 0 <= p < |t| ::
              IsDivider(t[p])
              <==> (|| Count(t, Divider(2), Less) <= p < Count(t, Divider(2), Less) + Count(t, Divider(2), Equal)
                    || Count(t, Divider(6), Less) <= p < Count(t, Divider(6), Less) + Count(t, Divider(6), Equal))
  {
    var two, six := Divider(2), Divider(6);
    assert Wf(List([Int(2)])) && Wf(List([Int(6)]));
    Bands(t, two);
    Bands(t, six);
    CountsSplit(t, two);
    CountsSplit(t, six);
    var end2 := Count(t, two, Less) + Count(t, two, Equal);
    if 0 < end2 {
      assert Compare(two, six) == Some(Less);
      CompareTransitive(t[end2 - 1], two, six);
    }
  }

  /** Every sorted arrangement of `packets` puts the dividers at the positions
      `DividerProduct` multiplies. */
  lemma SortedDividers(t: seq<Value>, packets: seq<Value>)
    requires Ordered(t) && AllWf(t) && multiset(t) == multiset(packets)
    ensures DividerPositions(t) == DividerSlots(packets)
    ensures Product(DividerPositions(t)) == DividerProduct(packets)
  {
    SlotsPermutation(t, packets);
    SortedPositions(t);
  }

  /** In an ordered sequence the dividers sit at the positions right after the packets `Less`
      than each of them, one position per equal packet. */
  lemma SortedPositions(t: seq<Value>)
    requires Ordered(t) && AllWf(t)
    ensures DividerPositions(t) == DividerSlots(t)
  {
    DividerRuns(t);
    var less2, less6 := Count(t, Divider(2), Less), Count(t, Divider(6), Less);
    var same2, same6 := Count(t, Divider(2), Equal), Count(t, Divider(6), Equal);
    RunsPositions(t, less2, less2 + same2, less6, less6 + same6);
  }

  /** `DividerSlots` depends only on which packets there are, not on their order. */
  lemma SlotsPermutation(s: seq<Value>, t: seq<Value>)
    requires multiset(s) == multiset(t)
    ensures DividerSlots(s) == DividerSlots(t)
  {
    CountPermutation(s, t, Divider(2), Less);
    CountPermutation(s, t, Divider(2), Equal);
    CountPermutation(s, t, Divider(6), Less);
    CountPermutation(s, t, Divider(6), Equal);
  }

  /** A sequence whose dividers fill the runs `a..b` and `c..e` has them at positions `a + 1`
      to `b` and `c + 1` to `e`, counting from one. */
  lemma RunsPositions(s: seq<Value>, a: nat, b: nat, c: nat, e: nat)
    requires a <= b <= c <= e <= |s|
    requires forall p | 0 <= p < |s| :: IsDivider(s[p]) <==> (a <= p < b || c <= p < e)
    ensures DividerPositions(s) == Range(a + 1, b + 1) + Range(c + 1, e + 1)
  {
    RunsFiltered(s, a, b, c, e, |s|);
    assert s[..|s|] == s;
  }
}
