/** src/main.rs: the single-file program that days 1 to 11 started in. Its code is the code of the
    day files, which the other modules model, except in two places modelled here:
    `forest_from_file` hands `Vec2d::new` the forest's width as the row count and its height as
    the column count, and `do_monkey_business` computes in `u32` and never reduces a worry level
    modulo `max_worry`. */
module MainRs {
  import opened Util
  import opened Text
  import opened Grid
  import Day08
  import Day11

  // ---------------------------------------------------------------------------------------------
  // `forest_from_file` with the dimensions swapped

  /** `forest_from_file` as main.rs writes it: the same checks as `Day08.ForestInput`, but the
      width (the first line's length) becomes the row count and the height (the number of lines)
      the column count. */
  function ForestInputAsWritten(lines: seq<string>): Option<Day08.Shape>
  {
    if lines == [] then None
    else if exists i | 0 <= i < |lines| :: !AllDigits(lines[i]) then None
    else if |Flatten(Day08.DigitRows(lines))| != |lines[0]| * |lines| then None
    else Some(Day08.Shape(Flatten(Day08.DigitRows(lines)), |lines[0]|, |lines|))
  }

  /** Both versions accept the same files and lay out the same cells, with the dimensions swapped. */
  lemma ForestTransposed(lines: seq<string>)
    ensures ForestInputAsWritten(lines).None? <==> Day08.ForestInput(lines).None?
    ensures ForestInputAsWritten(lines).Some? ==>
              && ForestInputAsWritten(lines).value.cells == Day08.ForestInput(lines).value.cells
              && ForestInputAsWritten(lines).value.rows == Day08.ForestInput(lines).value.cols
              && ForestInputAsWritten(lines).value.cols == Day08.ForestInput(lines).value.rows
  {
    if lines != [] {
      assert |lines[0]| * |lines| == |lines| * |lines[0]|;
    }
  }

  /** On a square forest, such as the five-by-five test forest, the swap makes no difference. */
  lemma ForestSquare(lines: seq<string>)
    requires lines != [] && |lines[0]| == |lines|
    ensures ForestInputAsWritten(lines) == Day08.ForestInput(lines)
  {
    ForestTransposed(lines);
  }

  /** A one-line file `123` (three trees in a row): main.rs builds a grid of three rows of one
      column, whose first row holds only the first tree, where day08.rs builds one row of three. */
  lemma ForestOneLine()
    ensures ForestInputAsWritten(["123"]) == Some(Day08.Shape([1, 2, 3], 3, 1))
    ensures Day08.ForestInput(["123"]) == Some(Day08.Shape([1, 2, 3], 1, 3))
    ensures ForestInputAsWritten(["123"]).value.cells[..1] == [1]
  {
    var lines := ["123"];
    assert AllDigits(lines[0]);
    assert Day08.DigitValues(lines[0]) == [1, 2, 3];
    assert Day08.DigitRows(lines) == [[1, 2, 3]];
    assert Flatten([[1, 2, 3]]) == [1, 2, 3] by {
      assert [[1, 2, 3]][..0] == [];
    }
  }

  // ---------------------------------------------------------------------------------------------
  // `do_monkey_business` without the reduction

  /** Monkey `i`, popped off the deque, inspects its first item and pushes it onto the target; the
      new worry level is only divided by `relief`. */
  method ThrowItem(monkey: Day11.Monkey, monkeys: seq<Day11.Monkey>, i: nat, numMonkeys: nat, relief: nat,
                   ghost ms: seq<Day11.Monkey>)
    returns (popped: Day11.Monkey, rest: seq<Day11.Monkey>)
    requires Day11.Valid(ms) && i < |ms| && |ms[i].items| > 0 && relief > 0 && numMonkeys == |ms|
    requires monkey == ms[i] && monkeys == Day11.Without(ms, i)
    ensures popped == Day11.Throw(ms, i, relief, None)[i]
    ensures rest == Day11.Without(Day11.Throw(ms, i, relief, None), i)
  {
    Day11.ThrowInDeque(ms, i, relief, None);
    var item := monkey.items[0];
    popped := monkey.(items := monkey.items[1..]);
    item := Day11.Apply(popped.operator, item, match popped.operand case Some(n) => n case None => item) / relief;
    assert item == Day11.NewWorry(ms[i], ms[i].items[0], relief, None);
    if item % popped.test == 0 {
      var idx := if i < popped.ifTrue then popped.ifTrue - 1 - i else popped.ifTrue + numMonkeys - 1 - i;
      rest := monkeys[idx := monkeys[idx].(items := monkeys[idx].items + [item])];
    } else {
      var idx := if i < popped.ifFalse then popped.ifFalse - 1 - i else popped.ifFalse + numMonkeys - 1 - i;
      rest := monkeys[idx := monkeys[idx].(items := monkeys[idx].items + [item])];
    }
  }

  /** Monkey `i`'s turn on the deque: pop it, throw each of its items, count each inspection, and
      push it back. */
  method PlayTurn(deque: seq<Day11.Monkey>, inspections: seq<nat>, i: nat, relief: nat, ghost s: Day11.State)
    returns (after: seq<Day11.Monkey>, counts: seq<nat>)
    requires Day11.Good(s) && i < |s.monkeys| && relief > 0
    requires deque == Day11.Rotate(s.monkeys, i) && inspections == s.inspections
    ensures after == Day11.Rotate(Day11.PlayedTurn(s, i, relief, None).monkeys, i + 1)
    ensures counts == Day11.PlayedTurn(s, i, relief, None).inspections
  {
    ghost var ms := s.monkeys;
    var numMonkeys := |deque|;
    Day11.RotateParts(ms, i);
    var monkey := deque[0];
    var monkeys := deque[1..];
    counts := inspections;
    var count := |monkey.items|;
    ghost var thrown := ms;
    for k := 0 to count
      invariant thrown == Day11.Throws(ms, i, k, relief, None)
      invariant monkey == thrown[i] && monkeys == Day11.Without(thrown, i)
      invariant counts == inspections[i := inspections[i] + k]
    {
      counts := counts[i := counts[i] + 1];
      monkey, monkeys := ThrowItem(monkey, monkeys, i, numMonkeys, relief, thrown);
      thrown := Day11.Throw(thrown, i, relief, None);
    }
    after := monkeys + [monkey];
    Day11.RotateParts(thrown, i);
  }

  /** One round: every monkey in deque order takes its turn. */
  method PlayRound(deque: seq<Day11.Monkey>, inspections: seq<nat>, relief: nat, ghost s: Day11.State)
    returns (after: seq<Day11.Monkey>, counts: seq<nat>)
    requires Day11.Good(s) && deque == s.monkeys && inspections == s.inspections && relief > 0
    ensures Day11.State(after, counts) == Day11.Round(s, relief, None)
  {
    var numMonkeys := |deque|;
    after, counts := deque, inspections;
    Day11.RotateWhole(s.monkeys);
    ghost var played := s;
    for i := 0 to numMonkeys
      invariant played == Day11.Turns(s, i, relief, None)
      invariant after == Day11.Rotate(played.monkeys, i) && counts == played.inspections
    {
      after, counts := PlayTurn(after, counts, i, relief, played);
      played := Day11.PlayedTurn(played, i, relief, None);
      Day11.TurnsStep(s, i + 1, relief, None);
    }
    Day11.RotateWhole(played.monkeys);
  }

  /** main.rs's `do_monkey_business`: the rounds of day11.rs with every new worry level only
      divided by `relief`, never reduced; the answer is the product of the two largest inspection
      counts. The rounds are played in unbounded arithmetic: the `u32` overflow of main.rs's worry
      levels is modelled for one throw only, by `NewWorryU32`. */
  method DoMonkeyBusiness(monkeys: seq<Day11.Monkey>, rounds: nat, relief: nat) returns (level: nat)
    requires Day11.Valid(monkeys) && relief > 0
    ensures level == Day11.MonkeyBusiness(Day11.Rounds(Day11.Start(monkeys), rounds, relief, None).inspections)
  {
    var inspections := Day11.Zeros(|monkeys|);
    var deque := monkeys;
    for r := 0 to rounds
      invariant Day11.State(deque, inspections) == Day11.Rounds(Day11.Start(monkeys), r, relief, None)
    {
      deque, inspections := PlayRound(deque, inspections, relief, Day11.State(deque, inspections));
    }
    level := Day11.MonkeyBusiness(inspections);
  }

  /** `day_11_2`: ten thousand rounds with no relief. Without reduction the worry levels only grow;
      in unbounded arithmetic the answer is the one day11.rs computes with its reduction. */
  method MonkeyBusinessPart2(monkeys: seq<Day11.Monkey>) returns (level: nat)
    requires Day11.Valid(monkeys)
    ensures level == Day11.MonkeyBusiness(Day11.Rounds(Day11.Start(monkeys), 10_000, 1, None).inspections)
    ensures level == Day11.MonkeyBusiness(
                       Day11.Rounds(Day11.Start(monkeys), 10_000, 1, Some(Day11.MaxWorry(monkeys))).inspections)
  {
    level := DoMonkeyBusiness(monkeys, 10_000, 1);
    Day11.MaxWorryKeepsInspections(monkeys, 10_000);
  }

  /** `day_11_1`: twenty rounds, worry divided by three. */
  method MonkeyBusinessPart1(monkeys: seq<Day11.Monkey>) returns (level: nat)
    requires Day11.Valid(monkeys)
    ensures level == Day11.MonkeyBusiness(Day11.Rounds(Day11.Start(monkeys), 20, 3, None).inspections)
  {
    level := DoMonkeyBusiness(monkeys, 20, 3);
  }

  // ---------------------------------------------------------------------------------------------
  // `u32` worry levels

  const U32_MAX: nat := 0xFFFF_FFFF

  /** The new worry level in main.rs's `u32` arithmetic: `None` where `operator(item, operand)`
      overflows, which panics. */
  function NewWorryU32(m: Day11.Monkey, item: nat, relief: nat): (r: Option<nat>)
    requires relief > 0
  {
    if Day11.Operated(m, item) > U32_MAX then None else Some(Day11.Operated(m, item) / relief)
  }

  /** Where `u32` arithmetic does not overflow it gives the unreduced worry level of the model. */
  lemma NewWorryU32Agrees(m: Day11.Monkey, item: nat, relief: nat)
    requires relief > 0 && NewWorryU32(m, item, relief).Some?
    ensures NewWorryU32(m, item, relief).value == Day11.NewWorry(m, item, relief, None)
    ensures NewWorryU32(m, item, relief).value <= U32_MAX
  {
  }

  /** A worry level of 65536 squared (`old * old`) is 2^32, one more than `u32::MAX`. */
  lemma SquareOverflows()
    ensures NewWorryU32(Day11.Monkey([65536], Day11.Mul, None, 2, 1, 1), 65536, 1).None?
  {
    assert Day11.Operated(Day11.Monkey([65536], Day11.Mul, None, 2, 1, 1), 65536) == 65536 * 65536;
  }
}
