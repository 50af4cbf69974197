/** Day 4: pairs of elves with inclusive section ranges. Each line "a-b,c-d" is one pair;
    part 1 counts pairs where one range contains the other, part 2 pairs that overlap. */
module Day04 {
  import opened Util
  import opened Text

  /** `RangeInclusive`: the sections `start..=end`; empty when `start > end`. */
  datatype Range = Range(start: nat, end: nat)
  {
    predicate Contains(x: int) { start <= x <= end }

    predicate NonEmpty() { start <= end }
  }

  type AssignmentPair = (Range, Range)

  /** Every section of `a` is a section of `b`. */
  ghost predicate Within(a: Range, b: Range)
  {
    forall x :: a.Contains(x) ==> b.Contains(x)
  }

  /** Some section belongs to both ranges. */
  ghost predicate Meet(a: Range, b: Range)
  {
    exists x :: a.Contains(x) && b.Contains(x)
  }

  /** One side "a-b" read as a range; `None` marks the `unwrap`s that panic. */
  function ParseRange(s: string): Option<Range>
  {
    match SplitOnce(s, "-")
    case None => None
    case Some((ss, es)) =>
      match (ParseNat(ss), ParseNat(es))
      case (Some(a), Some(b)) => Some(Range(a, b))
      case _ => None
  }

  /** `next` on one line "a-b,c-d": the two sides either side of the comma. */
  function ParsePair(line: string): Option<AssignmentPair>
  {
    match SplitOnce(line, ",")
    case None => None
    case Some((left, right)) =>
      match (ParseRange(left), ParseRange(right))
      case (Some(l), Some(r)) => Some((l, r))
      case _ => None
  }

  /** The line a pair is written as. */
  function Render(pair: AssignmentPair): string
  {
    ShowNat(pair.0.start) + "-" + ShowNat(pair.0.end) + "," + ShowNat(pair.1.start) + "-" + ShowNat(pair.1.end)
  }

  /** The range written "a-b" is parsed back. */
  lemma ParseRenderRange(r: Range)
    ensures ParseRange(ShowNat(r.start) + "-" + ShowNat(r.end)) == Some(r)
  {
    ShowNatLacks(r.start, '-');
    SplitOnceAt(ShowNat(r.start), "-", ShowNat(r.end));
    ParseShowNat(r.start);
    ParseShowNat(r.end);
  }

  /** Parsing undoes rendering. */
  lemma ParseRender(pair: AssignmentPair)
    ensures ParsePair(Render(pair)) == Some(pair)
  {
    var left := ShowNat(pair.0.start) + "-" + ShowNat(pair.0.end);
    var right := ShowNat(pair.1.start) + "-" + ShowNat(pair.1.end);
    assert Render(pair) == left + "," + right;
    ShowNatLacks(pair.0.start, ',');
    ShowNatLacks(pair.0.end, ',');
    LacksJoined(ShowNat(pair.0.start), "-", ShowNat(pair.0.end), ',');
    SplitOnceAt(left, ",", right);
    ParseRenderRange(pair.0);
    ParseRenderRange(pair.1);
  }

  /** Every line the iterator will read is a pair. */
  predicate AllPairs(lines: seq<string>)
  {
    forall i | 0 <= i < |lines| :: ParsePair(lines[i]).Some?
  }

  /** The pairs the iterator yields: one per line. */
  function Pairs(lines: seq<string>): (pairs: seq<AssignmentPair>)
    requires AllPairs(lines)
    ensures |pairs| == |lines|
  {
    if lines == [] then [] else [ParsePair(lines[0]).value] + Pairs(lines[1..])
  }

  /** Pair `i` is line `i` parsed. */
  lemma {:induction false} PairsAt(lines: seq<string>, i: nat)
    requires AllPairs(lines) && i < |lines|
    ensures Some(Pairs(lines)[i]) == ParsePair(lines[i])
    decreases i
  {
    if i > 0 {
      assert AllPairs(lines[1..]) by {
        forall j | 0 <= j < |lines| - 1
          ensures ParsePair(lines[1..][j]).Some?
        {
          assert lines[1..][j] == lines[j + 1];
        }
      }
      PairsAt(lines[1..], i - 1);
    }
  }

  /** The iterator's test cases: a line of each test input parses to its pair of ranges... */
  lemma ParseExampleShort()
    ensures ParsePair("1-2,5-100") == Some((Range(1, 2), Range(5, 100)))
  {
    assert Render((Range(1, 2), Range(5, 100))) == "1-2,5-100" by { assert ShowNat(100) == "100"; }
    ParseRender((Range(1, 2), Range(5, 100)));
  }

  lemma ParseExampleLong()
    ensures ParsePair("3-4,100-1000") == Some((Range(3, 4), Range(100, 1000)))
  {
    assert Render((Range(3, 4), Range(100, 1000))) == "3-4,100-1000" by {
      assert ShowNat(100) == "100" && ShowNat(1000) == "1000";
    }
    ParseRender((Range(3, 4), Range(100, 1000)));
  }

  lemma ParseExampleTwoDigits()
    ensures ParsePair("7-11,13-14") == Some((Range(7, 11), Range(13, 14)))
  {
    assert Render((Range(7, 11), Range(13, 14))) == "7-11,13-14" by {
      assert ShowNat(11) == "11" && ShowNat(13) == "13" && ShowNat(14) == "14";
    }
    ParseRender((Range(7, 11), Range(13, 14)));
  }

  /** ... and the empty input yields no pairs. */
  lemma ParseExampleEmpty()
    ensures Pairs([]) == []
  {
  }

  /** The iterator over the lines still to be read. */
  class AssignmentPairsInput {
    var lines: seq<string>

    constructor (lines: seq<string>)
      ensures this.lines == lines
    {
      this.lines := lines;
    }

    /** `next`: the next line as a pair, or `None` once the lines run out. */
    method Next() returns (r: Option<AssignmentPair>)
      requires AllPairs(lines)
      modifies this
      ensures old(lines) == [] ==> r.None? && lines == []
      ensures old(lines) != [] ==> r == ParsePair(old(lines)[0]) && lines == old(lines)[1..]
      ensures AllPairs(lines)
      ensures r.None? <==> old(lines) == []
      ensures r.Some? ==> Pairs(old(lines)) == [r.value] + Pairs(lines)
    {
      if lines == [] {
        return None;
      }
      var line := lines[0];
      lines := lines[1..];
      r := ParsePair(line);
    }
  }

  /** `one_contains_other`: one range holds both ends of the other. */
  function OneContainsOther(pair: AssignmentPair): (r: bool)
    ensures r ==> Overlaps(pair)
  {
    (pair.0.Contains(pair.1.start) && pair.0.Contains(pair.1.end))
    || (pair.1.Contains(pair.0.start) && pair.1.Contains(pair.0.end))
  }

  /** `overlaps`: one range holds an end of the other. */
  function Overlaps(pair: AssignmentPair): bool
  {
    pair.0.Contains(pair.1.start) || pair.0.Contains(pair.1.end)
    || pair.1.Contains(pair.0.start) || pair.1.Contains(pair.0.end)
  }

  /** Neither test depends on the order of the pair. */
  lemma Symmetric(pair: AssignmentPair)
    ensures OneContainsOther((pair.1, pair.0)) == OneContainsOther(pair)
    ensures Overlaps((pair.1, pair.0)) == Overlaps(pair)
  {
  }

  /** For non-empty ranges, `one_contains_other` means that every section of one range lies in the other. */
  lemma ContainmentMeaning(pair: AssignmentPair)
    requires pair.0.NonEmpty() && pair.1.NonEmpty()
    ensures OneContainsOther(pair) <==> Within(pair.0, pair.1) || Within(pair.1, pair.0)
  {
    if Within(pair.1, pair.0) {
      assert pair.1.Contains(pair.1.start) && pair.1.Contains(pair.1.end);
    }
    if Within(pair.0, pair.1) {
      assert pair.0.Contains(pair.0.start) && pair.0.Contains(pair.0.end);
    }
  }

  /** For non-empty ranges, `overlaps` means that some section is in both, which is the case exactly
      when the later start is no later than the earlier end. */
  lemma OverlapMeaning(pair: AssignmentPair)
    requires pair.0.NonEmpty() && pair.1.NonEmpty()
    ensures Overlaps(pair) <==> Meet(pair.0, pair.1)
    ensures Overlaps(pair) <==> Max(pair.0.start, pair.1.start) <= Min(pair.0.end, pair.1.end)
  {
    var lo := Max(pair.0.start, pair.1.start);
    if lo <= Min(pair.0.end, pair.1.end) {
      assert pair.0.Contains(lo) && pair.1.Contains(lo);
    }
    if Meet(pair.0, pair.1) {
      var x :| pair.0.Contains(x) && pair.1.Contains(x);
      assert lo <= x <= Min(pair.0.end, pair.1.end);
    }
  }

  /** The test cases of both predicates. */
  lemma PredicateExamples()
    ensures OneContainsOther((Range(1, 4), Range(2, 3)))
    ensures OneContainsOther((Range(2, 3), Range(1, 4)))
    ensures !OneContainsOther((Range(1, 4), Range(2, 5)))
    ensures !OneContainsOther((Range(2, 5), Range(1, 4)))
    ensures OneContainsOther((Range(1, 1), Range(1, 2)))
    ensures Overlaps((Range(1, 4), Range(2, 3)))
    ensures Overlaps((Range(2, 3), Range(1, 4)))
    ensures Overlaps((Range(1, 4), Range(2, 5)))
    ensures Overlaps((Range(2, 5), Range(1, 4)))
    ensures Overlaps((Range(1, 2), Range(2, 3)))
    ensures !Overlaps((Range(1, 2), Range(3, 4)))
  {
  }

  /** Which of the two predicates a part counts. */
  datatype Criterion = Containment | Overlap

  predicate Holds(c: Criterion, pair: AssignmentPair)
  {
    match c
    case Containment => OneContainsOther(pair)
    case Overlap => Overlaps(pair)
  }

  /** The number of pairs satisfying `c`, counted from the left. */
  function Count(pairs: seq<AssignmentPair>, c: Criterion): nat
  {
    if pairs == [] then 0
    else Count(pairs[..|pairs| - 1], c) + (if Holds(c, pairs[|pairs| - 1]) then 1 else 0)
  }

  lemma CountAppend(pairs: seq<AssignmentPair>, pair: AssignmentPair, c: Criterion)
    ensures Count(pairs + [pair], c) == Count(pairs, c) + (if Holds(c, pair) then 1 else 0)
  {
    assert (pairs + [pair])[..|pairs|] == pairs;
  }

  /** At most every pair is counted, and every contained pair also overlaps, so the
      answer to part 1 never exceeds the answer to part 2. */
  lemma {:induction false} CountBounds(pairs: seq<AssignmentPair>)
    ensures Count(pairs, Containment) <= Count(pairs, Overlap) <= |pairs|
    decreases |pairs|
  {
    if pairs != [] {
      CountBounds(pairs[..|pairs| - 1]);
    }
  }

  /** `part_1` and `part_2`: one pass over the iterator, counting the pairs that satisfy `c`. */
  method CountPairs(lines: seq<string>, c: Criterion) returns (result: nat)
    requires AllPairs(lines)
    ensures result == Count(Pairs(lines), c)
  {
    var input := new AssignmentPairsInput(lines);
    result := 0;
    ghost var seen: seq<AssignmentPair> := [];
    while true
      invariant AllPairs(input.lines)
      invariant Pairs(lines) == seen + Pairs(input.lines)
      invariant result == Count(seen, c)
      decreases |input.lines|
    {
      ghost var before := input.lines;
      var pair := input.Next();
      if pair.None? {
        SeenAll(Pairs(lines), seen, Pairs(before));
        break;
      }
      SeenOne(Pairs(lines), seen, pair.value, Pairs(before), Pairs(input.lines));
      CountAppend(seen, pair.value, c);
      if Holds(c, pair.value) {
        result := result + 1;
      }
      seen := seen + [pair.value];
    }
  }

  lemma SeenAll(all: seq<AssignmentPair>, seen: seq<AssignmentPair>, rest: seq<AssignmentPair>)
    requires all == seen + rest && rest == []
    ensures all == seen
  {
  }

  lemma SeenOne(all: seq<AssignmentPair>, seen: seq<AssignmentPair>, pair: AssignmentPair,
                rest: seq<AssignmentPair>, later: seq<AssignmentPair>)
    requires all == seen + rest && rest == [pair] + later
    ensures all == (seen + [pair]) + later
  {
  }

  method Part1(lines: seq<string>) returns (result: nat)
    requires AllPairs(lines)
    ensures result == Count(Pairs(lines), Containment)
  {
    result := CountPairs(lines, Containment);
  }

  method Part2(lines: seq<string>) returns (result: nat)
    requires AllPairs(lines)
    ensures result == Count(Pairs(lines), Overlap)
  {
    result := CountPairs(lines, Overlap);
  }

  /** The puzzle's published example pairs: two containments and four overlaps. */
  lemma ExampleCounts()
    ensures var pairs := [(Range(2, 4), Range(6, 8)), (Range(2, 3), Range(4, 5)), (Range(5, 7), Range(7, 9)),
                          (Range(2, 8), Range(3, 7)), (Range(6, 6), Range(4, 6)), (Range(2, 6), Range(4, 8))];
            Count(pairs, Containment) == 2 && Count(pairs, Overlap) == 4
  {
    var pairs := [(Range(2, 4), Range(6, 8)), (Range(2, 3), Range(4, 5)), (Range(5, 7), Range(7, 9)),
                  (Range(2, 8), Range(3, 7)), (Range(6, 6), Range(4, 6)), (Range(2, 6), Range(4, 8))];
    forall c: Criterion
      ensures Count(pairs, c) == Count(pairs[..5], c) + (if Holds(c, pairs[5]) then 1 else 0)
      ensures Count(pairs[..5], c) == Count(pairs[..4], c) + (if Holds(c, pairs[4]) then 1 else 0)
      ensures Count(pairs[..4], c) == Count(pairs[..3], c) + (if Holds(c, pairs[3]) then 1 else 0)
      ensures Count(pairs[..3], c) == Count(pairs[..2], c) + (if Holds(c, pairs[2]) then 1 else 0)
      ensures Count(pairs[..2], c) == Count(pairs[..1], c) + (if Holds(c, pairs[1]) then 1 else 0)
      ensures Count(pairs[..1], c) == if Holds(c, pairs[0]) then 1 else 0
    {
      assert pairs[..5][..4] == pairs[..4] && pairs[..4][..3] == pairs[..3];
      assert pairs[..3][..2] == pairs[..2] && pairs[..2][..1] == pairs[..1] && pairs[..1][..0] == [];
    }
  }
}
