/** Day 1: the elves' calorie lists. Lines are grouped into runs separated by blank
    lines; each run is summed; part 1 is the largest total and part 2 the sum of the
    three largest (kept in a running top-three array). */
module Day01 {
  import opened Util
  import opened Text

  /** The lines one `next` reads before the first blank line are numbers; otherwise
      `parse::<u32>().expect` panics during that call. */
  predicate RunParses(lines: seq<string>)
  {
    forall i | 0 <= i < FirstBlank(lines) :: NumberAt(lines, i)
  }

  /** Every line that a `for` loop over a fresh iterator reads is a number: the run of each
      `next` that yields, and that of the call that ends the loop. Lines after a blank line
      that opens no run are never read, so they need not parse. */
  predicate Parses(lines: seq<string>)
    decreases |lines|
  {
    RunParses(lines) && (NextGroup(lines).0.Some? ==> Parses(NextGroup(lines).1))
  }

  /** Line `i` is blank or a number. */
  predicate NumberAt(lines: seq<string>, i: nat)
    requires i < |lines|
  {
    lines[i] != "" ==> ParseNat(lines[i]).Some?
  }

  /** Input whose every non-blank line is a number is read to the end without a panic. */
  lemma {:induction false} AllNumbersParse(lines: seq<string>)
    requires forall i | 0 <= i < |lines| :: NumberAt(lines, i)
    ensures Parses(lines)
    decreases |lines|
  {
    if NextGroup(lines).0.Some? {
      var m := Min(FirstBlank(lines) + 1, |lines|);
      forall i | 0 <= i < |lines| - m ensures NumberAt(lines[m..], i) {
        assert NumberAt(lines, i + m);
      }
      AllNumbersParse(lines[m..]);
    }
  }

  /** A blank line that opens no run ends the loop: whatever follows it is never read, and
      only the runs before it are yielded. */
  lemma UnreadAfterEmptyRun(run: seq<string>, rest: seq<string>)
    requires IsRun(run)
    ensures Parses(run + ["", ""] + rest)
    ensures Groups(run + ["", ""] + rest) == [Calories(run)]
  {
    var lines := run + ["", ""] + rest;
    var tail := ["", ""] + rest;
    assert lines == run + tail;
    NextGroupOfRun(run, tail);
    FirstBlankOf(run, tail);
    forall i | 0 <= i < FirstBlank(lines) ensures NumberAt(lines, i) {
      assert lines[i] == run[i] && NumberAt(run, i);
    }
    var after := tail[1..];
    assert after[0] == "";
    assert FirstBlank(after) == 0;
    assert NextGroup(after).0 == None;
  }

  /** The input `1`, blank, blank, `abc`: the loop yields 1 and never reads `abc`. */
  lemma ExampleUnreadLine()
    ensures Parses(["1", "", "", "abc"])
    ensures Groups(["1", "", "", "abc"]) == [1]
  {
    assert ParseNat("1") == Some(1) by { ParseShowNat(1); }
    assert IsRun(["1"]);
    UnreadAfterEmptyRun(["1"], ["abc"]);
    assert ["1"] + ["", ""] + ["abc"] == ["1", "", "", "abc"];
    assert Calories(["1"]) == 1;
  }

  /** The number on a line. Only lines that `Parses` has admitted are ever summed. */
  function LineValue(line: string): nat
  {
    match ParseNat(line)
    case Some(n) => n
    case None => 0
  }

  /** The sum of the values of a run of lines. */
  function Calories(run: seq<string>): nat
  {
    if run == [] then 0 else Calories(run[..|run| - 1]) + LineValue(run[|run| - 1])
  }

  /** Reading one more line of a run adds its value. */
  lemma CaloriesStep(lines: seq<string>, i: nat)
    requires i < |lines|
    ensures Calories(lines[..i + 1]) == Calories(lines[..i]) + LineValue(lines[i])
  {
    assert lines[..i + 1][..i] == lines[..i];
  }

  /** One `next` between yields: the total of the lines before the first blank one (nothing
      when that run is empty), and the lines left after that blank line. */
  function NextGroup(lines: seq<string>): (r: (Option<nat>, seq<string>))
    ensures |r.1| <= |lines| && (r.0.Some? ==> |r.1| < |lines|)
  {
    var k := FirstBlank(lines);
    (if k == 0 then None else Some(Calories(lines[..k])), lines[Min(k + 1, |lines|)..])
  }

  /** What the `CaloriesInput` iterator yields, from a fresh iterator: one total per run of
      non-blank lines, stopping at the end of input or at a blank line that opens no run. */
  function Groups(lines: seq<string>): seq<nat>
    decreases |lines|
  {
    var next := NextGroup(lines);
    match next.0
    case None => []
    case Some(total) => [total] + Groups(next.1)
  }

  /** The iterator over the lines still to be read, with the source's accumulator fields. */
  class CaloriesInput {
    var lines: seq<string>
    var processing: bool
    var current: nat

    /** Between calls no group is part-read: `next` clears both fields whenever it yields,
        and only `next` touches them. */
    predicate Valid()
      reads this
    {
      !processing && current == 0
    }

    /** `file_calories`: a fresh iterator. */
    constructor (lines: seq<string>)
      ensures Valid() && this.lines == lines
    {
      this.lines := lines;
      processing := false;
      current := 0;
    }

    /** `next`: read lines up to and including the next blank one (or to the end), adding
        each value to `current`; yield the total if any value was added, resetting the
        accumulator. */
    method Next() returns (r: Option<nat>)
      requires Valid() && RunParses(lines)
      modifies this
      ensures Valid()
      ensures (r, lines) == NextGroup(old(lines))
    {
      ghost var all := lines;
      ghost var k := FirstBlank(all);
      FirstBlankIsFirst(all);
      ghost var i := 0;
      while lines != []
        invariant 0 <= i <= k && lines == all[i..]
        invariant current == Calories(all[..i])
        invariant processing == (i > 0)
        decreases |lines|
      {
        var line := lines[0];
        lines := lines[1..];
        if line == "" {
          assert i == k;
          break;
        }
        assert i < k;
        CaloriesStep(all, i);
        current := current + LineValue(line);
        processing := true;
        i := i + 1;
      }
      assert i == k && lines == all[Min(k + 1, |all|)..];
      if processing {
        r := Some(current);
        current := 0;
        processing := false;
      } else {
        r := None;
      }
    }
  }

  /** One more group read: it moves from the unread groups to the seen ones. */
  lemma SeenOne(all: seq<nat>, seen: seq<nat>, x: nat, rest: seq<nat>, later: seq<nat>)
    requires all == seen + rest && rest == [x] + later
    ensures all == (seen + [x]) + later
  {
  }

  /** `part_1`: the largest group total, 0 when there are no groups. */
  method Part1(lines: seq<string>) returns (most: nat)
    requires Parses(lines)
    ensures forall i | 0 <= i < |Groups(lines)| :: Groups(lines)[i] <= most
    ensures most == 0 || most in Groups(lines)
  {
    var elves := new CaloriesInput(lines);
    most := 0;
    ghost var seen: seq<nat> := [];
    while true
      invariant elves.Valid() && Parses(elves.lines)
      invariant Groups(lines) == seen + Groups(elves.lines)
      invariant forall i | 0 <= i < |seen| :: seen[i] <= most
      invariant most == 0 || most in seen
      decreases |elves.lines|
    {
      ghost var before := elves.lines;
      var calories := elves.Next();
      if calories.None? {
        break;
      }
      SeenOne(Groups(lines), seen, calories.value, Groups(before), Groups(elves.lines));
      BiggestStep(seen, most, calories.value);
      if calories.value > most {
        most := calories.value;
      }
      seen := seen + [calories.value];
    }
  }

  lemma BiggestStep(seen: seq<nat>, most: nat, x: nat)
    requires forall i | 0 <= i < |seen| :: seen[i] <= most
    requires most == 0 || most in seen
    ensures var m := if x > most then x else most;
            (forall i | 0 <= i < |seen| + 1 :: (seen + [x])[i] <= m) && (m == 0 || m in seen + [x])
  {
  }

  /** The values in the running: the three zeros the array starts with, then the group totals. */
  function Pool(totals: seq<nat>): (p: seq<nat>)
    ensures |p| == |totals| + 3
  {
    [0, 0, 0] + totals
  }

  /** Positions `i`, `j`, `k` of `pool` are distinct, hold non-increasing values, and no
      other position holds a value larger than the one at `k`. */
  predicate TopAt(pool: seq<nat>, i: nat, j: nat, k: nat)
  {
    i < |pool| && j < |pool| && k < |pool| && i != j && j != k && i != k
    && pool[i] >= pool[j] >= pool[k]
    && forall m | 0 <= m < |pool| && m != i && m != j && m != k :: pool[m] <= pool[k]
  }

  /** `part_2`: the running top three, kept sorted by shifting on insertion, sums to the three
      largest totals (zeros standing in when there are fewer than three groups). */
  method Part2(lines: seq<string>) returns (total: nat)
    requires Parses(lines)
    ensures exists i: nat, j: nat, k: nat :: TopAt(Pool(Groups(lines)), i, j, k) &&
              total == Pool(Groups(lines))[i] + Pool(Groups(lines))[j] + Pool(Groups(lines))[k]
  {
    var topThree := new nat[3] [0, 0, 0];
    var elves := new CaloriesInput(lines);
    ghost var seen: seq<nat> := [];
    ghost var pool: seq<nat> := Pool(seen);
    ghost var i: nat, j: nat, k: nat := 0, 1, 2;
    while true
      invariant elves.Valid() && Parses(elves.lines)
      invariant Groups(lines) == seen + Groups(elves.lines)
      invariant pool == Pool(seen)
      invariant TopAt(pool, i, j, k)
      invariant topThree[0] == pool[i] && topThree[1] == pool[j] && topThree[2] == pool[k]
      decreases |elves.lines|
    {
      ghost var before := elves.lines;
      var next := elves.Next();
      if next.None? {
        break;
      }
      var calories := next.value;
      SeenOne(Groups(lines), seen, calories, Groups(before), Groups(elves.lines));
      ghost var n := |pool|;
      InsertKeepsTopAt(pool, i, j, k, calories);
      if calories >= topThree[0] {
        topThree[2] := topThree[1];
        topThree[1] := topThree[0];
        topThree[0] := calories;
        i, j, k := n, i, j;
      } else if calories >= topThree[1] {
        topThree[2] := topThree[1];
        topThree[1] := calories;
        j, k := n, j;
      } else if calories > topThree[2] {
        topThree[2] := calories;
        k := n;
      }
      assert Pool(seen + [calories]) == pool + [calories];
      seen := seen + [calories];
      pool := pool + [calories];
    }
    assert seen == Groups(lines);
    total := topThree[0] + topThree[1] + topThree[2];
    assert TopAt(Pool(Groups(lines)), i, j, k);
  }

  /** Appending `x` at position `n`: each branch of the insertion step keeps the top three. */
  lemma InsertKeepsTopAt(pool: seq<nat>, i: nat, j: nat, k: nat, x: nat)
    requires TopAt(pool, i, j, k)
    ensures var p, n := pool + [x], |pool|;
            && p[n] == x && (forall m | 0 <= m < n :: p[m] == pool[m])
            && (x >= pool[i] ==> TopAt(p, n, i, j))
            && (pool[i] > x >= pool[j] ==> TopAt(p, i, n, j))
            && (pool[j] > x > pool[k] ==> TopAt(p, i, j, n))
            && (x <= pool[k] ==> TopAt(p, i, j, k))
  {
    var p := pool + [x];
    assert forall m | 0 <= m < |pool| :: p[m] == pool[m];
  }

  /** The first of the top three is the part 1 answer: the largest value in the pool. */
  lemma TopAtHeadIsMax(pool: seq<nat>, i: nat, j: nat, k: nat)
    requires TopAt(pool, i, j, k)
    ensures forall m | 0 <= m < |pool| :: pool[m] <= pool[i]
  {
  }

  /** The group totals of the repository's example, `[6000, 4000, 11000, 24000, 10000]`:
      part 1's answer is 24000 ... */
  lemma ExampleMost(most: nat)
    requires forall i | 0 <= i < 5 :: [6000, 4000, 11000, 24000, 10000][i] <= most
    requires most == 0 || most in [6000, 4000, 11000, 24000, 10000]
    ensures most == 24000
  {
    assert [6000, 4000, 11000, 24000, 10000][3] == 24000;
  }

  /** ... and part 2's is 45000. */
  lemma ExampleTopThree(i: nat, j: nat, k: nat)
    requires TopAt(Pool([6000, 4000, 11000, 24000, 10000]), i, j, k)
    ensures Pool([6000, 4000, 11000, 24000, 10000])[i] + Pool([6000, 4000, 11000, 24000, 10000])[j]
            + Pool([6000, 4000, 11000, 24000, 10000])[k] == 45000
  {
    var pool := Pool([6000, 4000, 11000, 24000, 10000]);
    assert pool == [0, 0, 0, 6000, 4000, 11000, 24000, 10000];
    assert pool[6] <= pool[i];
    assert i == 6;
    assert pool[5] <= pool[j];
    assert j == 5;
    assert pool[7] <= pool[k];
    assert k == 7;
  }

  /** A run of lines that `next` reads as one elf: non-blank numbers. */
  predicate IsRun(run: seq<string>)
  {
    run != [] && forall i | 0 <= i < |run| :: run[i] != "" && NumberAt(run, i)
  }

  /** The input that lists the runs with a blank line between consecutive runs. */
  function Render(runs: seq<seq<string>>): seq<string>
    requires |runs| >= 1
  {
    if |runs| == 1 then runs[0] else runs[0] + [""] + Render(runs[1..])
  }

  /** A run followed by a blank line (or by nothing) is read by one `next`. */
  lemma NextGroupOfRun(run: seq<string>, tail: seq<string>)
    requires IsRun(run) && (tail == [] || tail[0] == "")
    ensures NextGroup(run + tail) == (Some(Calories(run)), if tail == [] then [] else tail[1..])
  {
    var lines := run + tail;
    FirstBlankOf(run, tail);
    assert lines[..|run|] == run;
    assert lines[Min(|run| + 1, |lines|)..] == if tail == [] then [] else tail[1..];
  }

  /** The first `next` on rendered input yields the first run's total and leaves the rest rendered. */
  lemma NextGroupOfRender(runs: seq<seq<string>>)
    requires |runs| >= 1 && IsRun(runs[0])
    ensures NextGroup(Render(runs)) == (Some(Calories(runs[0])), if |runs| == 1 then [] else Render(runs[1..]))
  {
    if |runs| == 1 {
      assert Render(runs) == runs[0] + [];
      NextGroupOfRun(runs[0], []);
    } else {
      var tail := [""] + Render(runs[1..]);
      assert Render(runs) == runs[0] + tail;
      NextGroupOfRun(runs[0], tail);
      assert tail[1..] == Render(runs[1..]);
    }
  }

  /** Rendered runs are read to the end without a panic. */
  lemma {:induction false} RenderParses(runs: seq<seq<string>>)
    requires |runs| >= 1 && forall j | 0 <= j < |runs| :: IsRun(runs[j])
    ensures Parses(Render(runs))
    decreases |runs|
  {
    var run := runs[0];
    var lines := Render(runs);
    var tail: seq<string> := if |runs| == 1 then [] else [""] + Render(runs[1..]);
    assert lines == run + tail;
    FirstBlankOf(run, tail);
    forall i | 0 <= i < FirstBlank(lines) ensures NumberAt(lines, i) {
      assert lines[i] == run[i] && NumberAt(run, i);
    }
    NextGroupOfRender(runs);
    if |runs| > 1 {
      RenderParses(runs[1..]);
    }
  }

  /** The totals of the runs, in order. */
  function Totals(runs: seq<seq<string>>): (t: seq<nat>)
    ensures |t| == |runs|
  {
    if runs == [] then [] else [Calories(runs[0])] + Totals(runs[1..])
  }

  lemma {:induction false} TotalsAt(runs: seq<seq<string>>, j: nat)
    requires j < |runs|
    ensures Totals(runs)[j] == Calories(runs[j])
    decreases j
  {
    if j > 0 {
      TotalsAt(runs[1..], j - 1);
    }
  }

  /** Grouping undoes rendering: the iterator yields one total per run, in order. */
  lemma {:induction false} GroupsOfRender(runs: seq<seq<string>>)
    requires |runs| >= 1 && forall j | 0 <= j < |runs| :: IsRun(runs[j])
    ensures Parses(Render(runs))
    ensures Groups(Render(runs)) == Totals(runs)
    decreases |runs|
  {
    RenderParses(runs);
    NextGroupOfRender(runs);
    if |runs| == 1 {
      assert Groups(Render(runs)) == [Calories(runs[0])] + Groups([]);
      assert runs[1..] == [];
    } else {
      GroupsOfRender(runs[1..]);
      assert Groups(Render(runs)) == [Calories(runs[0])] + Groups(Render(runs[1..]));
    }
  }

  lemma FirstBlankOf(items: seq<string>, tail: seq<string>)
    requires forall i | 0 <= i < |items| :: items[i] != ""
    requires tail == [] || tail[0] == ""
    ensures FirstBlank(items + tail) == |items|
  {
    FirstBlankIsFirst(items + tail);
    assert forall i | 0 <= i < |items| :: (items + tail)[i] == items[i];
    assert |items| < |items + tail| ==> (items + tail)[|items|] == "";
  }
}
