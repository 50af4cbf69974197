/** Day 9: a rope of knots on the integer plane. The head moves one unit at a time and every
    following knot, in order, catches up with the knot before it whenever they stop touching. */
module Day09 {
  import opened Util
  import opened Text

  /** A knot position `(x, y)` (the source's `(i32, i32)`). */
  type Coord = (int, int)

  function Abs(x: int): nat { if x < 0 then -x else x }

  /** The source's `sqrt(dx² + dy²) < 1.5`, computed exactly: on integers the squared distance is
      0, 1, 2 (touching) or at least 4. */
  predicate Touching(knot: Coord, following: Coord)
  {
    (knot.0 - following.0) * (knot.0 - following.0) + (knot.1 - following.1) * (knot.1 - following.1) <= 2
  }

  /** At most one unit apart on each axis (diagonals included). */
  predicate Adjacent(a: Coord, b: Coord)
  {
    Abs(a.0 - b.0) <= 1 && Abs(a.1 - b.1) <= 1
  }

  lemma Square(x: int)
    ensures x * x >= 0
    ensures Abs(x) <= 1 ==> x * x == Abs(x)
    ensures Abs(x) >= 2 ==> x * x >= 4
  {
    if x >= 2 {
      assert x * x >= 2 * x;
    } else if x <= -2 {
      assert x * x >= -2 * x;
    }
  }

  /** The distance test is the same as being one unit apart on each axis. */
  lemma TouchingMeaning(a: Coord, b: Coord)
    ensures Touching(a, b) <==> Adjacent(a, b)
  {
    Square(a.0 - b.0);
    Square(a.1 - b.1);
  }

  /** One axis of the pull: `match following.cmp(&knot)`, one unit toward the knot ahead. */
  function Increment(following: int, knot: int): int
  {
    match Cmp(following, knot)
    case Less => 1
    case Equal => 0
    case Greater => -1
  }

  /** Where `following` goes once `knot` has moved: nowhere while they touch, otherwise one unit
      toward it on each axis where they differ. */
  function Follow(knot: Coord, following: Coord): Coord
  {
    if Touching(knot, following) then following
    else (following.0 + Increment(following.0, knot.0), following.1 + Increment(following.1, knot.1))
  }

  /** A knot stays put exactly while it touches the one ahead; it moves at most one unit per axis;
      and from up to two units away it ends up touching the knot ahead. */
  lemma FollowMeaning(knot: Coord, following: Coord)
    ensures Follow(knot, following) == following <==> Adjacent(knot, following)
    ensures Adjacent(Follow(knot, following), following)
    ensures Abs(knot.0 - following.0) <= 2 && Abs(knot.1 - following.1) <= 2 ==> Adjacent(knot, Follow(knot, following))
  {
    TouchingMeaning(knot, following);
  }

  // ---------------------------------------------------------------------------------------------
  // `move_rope`

  /** `move_rope` asserts that the head moves along one axis. */
  predicate AxisAligned(m: Coord)
  {
    m.0 == 0 || m.1 == 0
  }

  /** `head_steps`: `(dx + dy).abs()`. */
  function HeadSteps(m: Coord): nat
  {
    Abs(m.0 + m.1)
  }

  /** The per-step head move `(dx / head_steps, dy / head_steps)`. The divisions are exact, so
      truncating (the source) and Euclidean division agree. */
  function Unit(m: Coord): Coord
    requires HeadSteps(m) > 0
  {
    (m.0 / HeadSteps(m), m.1 / HeadSteps(m))
  }

  /** The unit step is one unit along the move's axis, and `head_steps` of them make the move. */
  lemma UnitMeaning(m: Coord)
    requires AxisAligned(m) && HeadSteps(m) > 0
    ensures Adjacent((0, 0), Unit(m)) && Abs(Unit(m).0) + Abs(Unit(m).1) == 1
    ensures HeadSteps(m) * Unit(m).0 == m.0 && HeadSteps(m) * Unit(m).1 == m.1
  {
    var n: int := HeadSteps(m);
    if m.1 == 0 {
      var q := if m.0 > 0 then 1 else -1;
      assert m.0 == n * q;
      DivModUnique(m.0, n, q, 0);
      DivModUnique(m.1, n, 0, 0);
    } else {
      var q := if m.1 > 0 then 1 else -1;
      assert m.1 == n * q;
      DivModUnique(m.1, n, q, 0);
      DivModUnique(m.0, n, 0, 0);
    }
  }

  /** Knot `i` after one step of the head by `u`: the head moves, then each knot follows the
      already moved knot ahead of it. */
  function Moved(rope: seq<Coord>, u: Coord, i: nat): Coord
    requires i < |rope|
  {
    if i == 0 then (rope[0].0 + u.0, rope[0].1 + u.1) else Follow(Moved(rope, u, i - 1), rope[i])
  }

  /** The rope after one step. */
  function Step(rope: seq<Coord>, u: Coord): (next: seq<Coord>)
    ensures |next| == |rope|
  {
    seq(|rope|, i requires 0 <= i < |rope| => Moved(rope, u, i))
  }

  /** The rope after `n` steps. */
  function Steps(rope: seq<Coord>, u: Coord, n: nat): (after: seq<Coord>)
    ensures |after| == |rope|
  {
    if n == 0 then rope else Step(Steps(rope, u, n - 1), u)
  }

  /** The rope after a whole `move_rope` call. */
  function Final(rope: seq<Coord>, m: Coord): (after: seq<Coord>)
    ensures |after| == |rope|
  {
    if HeadSteps(m) == 0 then rope else Steps(rope, Unit(m), HeadSteps(m))
  }

  /** One step of `move_rope`'s outer loop: the head moves by `(dx, dy)`, then every knot in
      order follows the knot ahead, rewriting `rope` in place. */
  method StepRope(rope: array<Coord>, dx: int, dy: int)
    requires rope.Length > 0
    modifies rope
    ensures rope[..] == Step(old(rope[..]), (dx, dy))
  {
    ghost var before := rope[..];
    ghost var after := Step(before, (dx, dy));
    rope[0] := (rope[0].0 + dx, rope[0].1 + dy);
    for i := 1 to rope.Length
      invariant forall k | 0 <= k < i :: rope[k] == after[k]
      invariant forall k | i <= k < rope.Length :: rope[k] == before[k]
    {
      var knot := rope[i - 1];
      var following := rope[i];
      var next := following;
      if !Touching(knot, following) {
        var xIncr := match Cmp(following.0, knot.0) case Less => 1 case Equal => 0 case Greater => -1;
        var yIncr := match Cmp(following.1, knot.1) case Less => 1 case Equal => 0 case Greater => -1;
        next := (following.0 + xIncr, following.1 + yIncr);
      }
      assert next == Follow(after[i - 1], before[i]) == after[i];
      rope[i] := next;
    }
    assert rope[..] == after;
  }

  /** `move_rope`: `head_steps` unit steps of the head, each followed by the rest of the rope.
      The result lists the rope as `after_step` sees it after each step, so `after_step` runs
      `head_steps` times. An empty rope is only accepted when the head does not move (`rope[0]`
      panics). */
  method MoveRope(rope: array<Coord>, headMove: Coord) returns (states: seq<seq<Coord>>)
    requires AxisAligned(headMove)
    requires rope.Length > 0 || HeadSteps(headMove) == 0
    modifies rope
    ensures |states| == HeadSteps(headMove)
    ensures forall k | 0 <= k < |states| :: states[k] == Steps(old(rope[..]), Unit(headMove), k + 1)
    ensures rope[..] == Final(old(rope[..]), headMove)
  {
    var headSteps := Abs(headMove.0 + headMove.1);
    ghost var start := rope[..];
    states := [];
    for step := 0 to headSteps
      invariant |states| == step
      invariant rope[..] == if headSteps == 0 then start else Steps(start, Unit(headMove), step)
      invariant forall k | 0 <= k < step :: states[k] == Steps(start, Unit(headMove), k + 1)
    {
      StepRope(rope, headMove.0 / headSteps, headMove.1 / headSteps);
      states := states + [rope[..]];
    }
  }

  // ---------------------------------------------------------------------------------------------
  // What a move preserves

  /** Each knot touches the one ahead of it. */
  ghost predicate Taut(rope: seq<Coord>)
  {
    forall i | 0 < i < |rope| :: Adjacent(rope[i - 1], rope[i])
  }

  /** In a step by at most one unit, every knot moves at most one unit and ends up touching the
      knot ahead. */
  lemma {:induction false} MovedNear(rope: seq<Coord>, u: Coord, i: nat)
    requires Taut(rope) && Adjacent((0, 0), u) && i < |rope|
    ensures Adjacent(Moved(rope, u, i), rope[i])
    ensures i > 0 ==> Adjacent(Moved(rope, u, i - 1), Moved(rope, u, i))
    decreases i
  {
    if i > 0 {
      MovedNear(rope, u, i - 1);
      FollowMeaning(Moved(rope, u, i - 1), rope[i]);
    }
  }

  /** A taut rope stays taut through a step, and no knot moves more than one unit. */
  lemma StepTaut(rope: seq<Coord>, u: Coord)
    requires Taut(rope) && Adjacent((0, 0), u)
    ensures Taut(Step(rope, u))
    ensures forall i | 0 <= i < |rope| :: Adjacent(Step(rope, u)[i], rope[i])
  {
    forall i | 0 <= i < |rope| ensures Adjacent(Step(rope, u)[i], rope[i]) && (i > 0 ==> Adjacent(Step(rope, u)[i - 1], Step(rope, u)[i])) {
      MovedNear(rope, u, i);
    }
  }

  lemma {:induction false} StepsTaut(rope: seq<Coord>, u: Coord, n: nat)
    requires Taut(rope) && Adjacent((0, 0), u)
    ensures Taut(Steps(rope, u, n))
    decreases n
  {
    if n > 0 {
      StepsTaut(rope, u, n - 1);
      StepTaut(Steps(rope, u, n - 1), u);
    }
  }

  /** A whole axis-aligned move keeps a taut rope taut. */
  lemma FinalTaut(rope: seq<Coord>, m: Coord)
    requires Taut(rope) && AxisAligned(m)
    ensures Taut(Final(rope, m))
  {
    if HeadSteps(m) > 0 {
      UnitMeaning(m);
      StepsTaut(rope, Unit(m), HeadSteps(m));
    }
  }

  /** After `n` steps the head has moved by `n * u`. */
  lemma {:induction false} HeadOfSteps(rope: seq<Coord>, u: Coord, n: nat)
    requires |rope| > 0
    ensures Steps(rope, u, n)[0] == (rope[0].0 + n * u.0, rope[0].1 + n * u.1)
    decreases n
  {
    if n > 0 {
      HeadOfSteps(rope, u, n - 1);
      assert (n - 1) * u.0 + u.0 == n * u.0 && (n - 1) * u.1 + u.1 == n * u.1;
    }
  }

  /** The head ends at `head + head_move`. */
  lemma FinalHead(rope: seq<Coord>, m: Coord)
    requires |rope| > 0 && AxisAligned(m)
    ensures Final(rope, m)[0] == (rope[0].0 + m.0, rope[0].1 + m.1)
  {
    if HeadSteps(m) > 0 {
      UnitMeaning(m);
      HeadOfSteps(rope, Unit(m), HeadSteps(m));
    } else {
      assert m == (0, 0);
    }
  }

  // ---------------------------------------------------------------------------------------------
  // `moves_from_file`

  /** One line `"<dir> <steps>"`, or `None` where `moves_from_file` panics: a line without a
      space or with an unparsable count. */
  function ParseMove(line: string): Option<Coord>
  {
    match SplitOnce(line, " ")
    case None => None
    case Some((dir, step)) =>
      match ParseInt(step)
      case None => None
      case Some(n) => Direction(dir, n)
  }

  /** `R`, `L`, `U`, `D` move `n` along x or y; anything else is the panic `invalid move
      direction`. */
  function Direction(dir: string, n: int): Option<Coord>
  {
    if dir == "R" then Some((n, 0))
    else if dir == "L" then Some((-n, 0))
    else if dir == "U" then Some((0, n))
    else if dir == "D" then Some((0, -n))
    else None
  }

  /** A move as the puzzle writes it. */
  function RenderMove(m: Coord): string
    requires AxisAligned(m)
  {
    if m.0 > 0 then "R" + " " + ShowNat(m.0)
    else if m.0 < 0 then "L" + " " + ShowNat(-m.0)
    else if m.1 >= 0 then "U" + " " + ShowNat(m.1)
    else "D" + " " + ShowNat(-m.1)
  }

  /** Every parsed move is one `move_rope` accepts. */
  lemma ParseMoveAligned(line: string)
    ensures ParseMove(line).Some? ==> AxisAligned(ParseMove(line).value)
  {
  }

  /** A one-letter direction, a space and a count split and parse back to that direction and
      count. */
  lemma ParseDirection(line: string, dir: string, n: nat)
    requires |dir| == 1 && dir[0] != ' ' && line == dir + " " + ShowNat(n)
    ensures ParseMove(line) == Direction(dir, n)
  {
    SplitOnceAt(dir, " ", ShowNat(n));
    ShowNatDigits(n);
    ParseShowNat(n);
    assert ShowNat(n)[0] != '-';
    assert ParseInt(ShowNat(n)) == Some(n);
  }

  lemma ParseRenderMove(m: Coord)
    requires AxisAligned(m)
    ensures ParseMove(RenderMove(m)) == Some(m)
  {
    var line := RenderMove(m);
    if m.0 > 0 {
      ParseDirection(line, "R", m.0);
      assert Direction("R", m.0) == Some(m);
    } else if m.0 < 0 {
      ParseDirection(line, "L", -m.0);
      assert Direction("L", -m.0) == Some(m);
    } else if m.1 >= 0 {
      ParseDirection(line, "U", m.1);
      assert Direction("U", m.1) == Some(m);
    } else {
      ParseDirection(line, "D", -m.1);
      assert Direction("D", -m.1) == Some(m);
    }
  }

  /** `moves_from_file` on the lines of the file: one move per line, or `None` where some line
      would panic. */
  function MovesFromFile(lines: seq<string>): (moves: Option<seq<Coord>>)
    ensures moves.Some? ==> |moves.value| == |lines|
  {
    if lines == [] then Some([])
    else
      match ParseMove(lines[0])
      case None => None
      case Some(m) =>
        match MovesFromFile(lines[1..])
        case None => None
        case Some(rest) => Some([m] + rest)
  }

  /** Each move is its line parsed; no result means some line does not parse. */
  lemma {:induction false} MovesFromFileMeaning(lines: seq<string>)
    ensures MovesFromFile(lines).Some? ==> forall i | 0 <= i < |lines| :: ParseMove(lines[i]) == Some(MovesFromFile(lines).value[i])
    ensures MovesFromFile(lines).None? <==> exists i | 0 <= i < |lines| :: ParseMove(lines[i]).None?
    decreases |lines|
  {
    if lines != [] {
      MovesFromFileMeaning(lines[1..]);
      if ParseMove(lines[0]).Some? && MovesFromFile(lines[1..]).Some? {
        var moves := MovesFromFile(lines).value;
        forall i | 0 <= i < |lines| ensures ParseMove(lines[i]) == Some(moves[i]) {
          if i > 0 {
            assert lines[i] == lines[1..][i - 1];
          }
        }
      } else if ParseMove(lines[0]).Some? {
        var i :| 0 <= i < |lines[1..]| && ParseMove(lines[1..][i]).None?;
        assert ParseMove(lines[i + 1]).None?;
      }
      forall i | 0 < i < |lines| && ParseMove(lines[i]).None? ensures MovesFromFile(lines).None? {
        assert lines[1..][i - 1] == lines[i];
      }
    }
  }

  /** Parsed moves are all axis-aligned. */
  lemma MovesAligned(lines: seq<string>)
    requires MovesFromFile(lines).Some?
    ensures forall i | 0 <= i < |lines| :: AxisAligned(MovesFromFile(lines).value[i])
  {
    MovesFromFileMeaning(lines);
    forall i | 0 <= i < |lines| ensures AxisAligned(MovesFromFile(lines).value[i]) {
      ParseMoveAligned(lines[i]);
    }
  }

  /** Rendering moves one per line and reading them back gives the moves. */
  lemma {:induction false} MovesFromRendered(lines: seq<string>, moves: seq<Coord>)
    requires |lines| == |moves|
    requires forall i | 0 <= i < |moves| :: AxisAligned(moves[i]) && lines[i] == RenderMove(moves[i])
    ensures MovesFromFile(lines) == Some(moves)
    decreases |moves|
  {
    if moves != [] {
      MovesFromRendered(lines[1..], moves[1..]);
      ParseRenderMove(moves[0]);
      assert [moves[0]] + moves[1..] == moves;
    }
  }

  /** The lines of `test09.txt`. */
  function ExampleMoveLines(): seq<string>
  {
    [RenderMove((4, 0)), RenderMove((0, 4)), RenderMove((-3, 0)), RenderMove((0, -1)),
     RenderMove((4, 0)), RenderMove((0, -1)), RenderMove((-5, 0)), RenderMove((2, 0))]
  }

  lemma ExampleMoveLinesText()
    ensures ExampleMoveLines() == ["R 4", "U 4", "L 3", "D 1", "R 4", "D 1", "L 5", "R 2"]
  {
    assert ShowNat(1) == "1" && ShowNat(2) == "2" && ShowNat(3) == "3" && ShowNat(4) == "4" && ShowNat(5) == "5";
    assert RenderMove((4, 0)) == "R 4" && RenderMove((0, 4)) == "U 4" && RenderMove((-3, 0)) == "L 3";
    assert RenderMove((0, -1)) == "D 1" && RenderMove((-5, 0)) == "L 5" && RenderMove((2, 0)) == "R 2";
  }

  /** `test_moves_from_file`. */
  lemma ExampleMovesFromFile()
    ensures MovesFromFile(ExampleMoveLines()) == Some([(4, 0), (0, 4), (-3, 0), (0, -1), (4, 0), (0, -1), (-5, 0), (2, 0)])
  {
    MovesFromRendered(ExampleMoveLines(), [(4, 0), (0, 4), (-3, 0), (0, -1), (4, 0), (0, -1), (-5, 0), (2, 0)]);
  }

  // ---------------------------------------------------------------------------------------------
  // `day_09`, `part_1`, `part_2`

  /** The rope after the moves, in order. */
  function Run(rope: seq<Coord>, moves: seq<Coord>): (after: seq<Coord>)
    ensures |after| == |rope|
  {
    if moves == [] then rope else Final(Run(rope, moves[..|moves| - 1]), moves[|moves| - 1])
  }

  /** Where the last knot is after each of the first `n` steps. */
  function TailsUpTo(rope: seq<Coord>, u: Coord, n: nat): set<Coord>
    requires |rope| > 0
  {
    if n == 0 then {} else TailsUpTo(rope, u, n - 1) + {Steps(rope, u, n)[|rope| - 1]}
  }

  /** Where the last knot is after each step of one move. */
  function Tails(rope: seq<Coord>, m: Coord): set<Coord>
    requires |rope| > 0
  {
    if HeadSteps(m) == 0 then {} else TailsUpTo(rope, Unit(m), HeadSteps(m))
  }

  /** Every position the last knot takes after some step of the moves. */
  function Visits(rope: seq<Coord>, moves: seq<Coord>): set<Coord>
    requires |rope| > 0
  {
    if moves == [] then {}
    else Visits(rope, moves[..|moves| - 1]) + Tails(Run(rope, moves[..|moves| - 1]), moves[|moves| - 1])
  }

  /** `day_09`: run the moves of the file through the rope, collecting the last knot's position
      after every step; the answer is the number of distinct positions. An empty rope panics
      (`rope.len() - 1`), and so do unreadable lines. */
  method Day09(lines: seq<string>, knots: seq<Coord>) returns (count: nat)
    requires |knots| > 0 && MovesFromFile(lines).Some?
    ensures count == |Visits(knots, MovesFromFile(lines).value)|
  {
    var moves := MovesFromFile(lines).value;
    MovesAligned(lines);
    count := TailVisits(moves, knots);
  }

  /** The loop of `day_09` over the parsed moves: each step's last knot goes into the set. */
  method TailVisits(moves: seq<Coord>, knots: seq<Coord>) returns (count: nat)
    requires |knots| > 0
    requires forall i | 0 <= i < |moves| :: AxisAligned(moves[i])
    ensures count == |Visits(knots, moves)|
  {
    var tailVisits: set<Coord> := {};
    var lastKnot := |knots| - 1;
    var rope := new Coord[|knots|](i requires 0 <= i < |knots| => knots[i]);
    assert rope[..] == knots;
    for k := 0 to |moves|
      invariant rope.Length == |knots|
      invariant rope[..] == Run(knots, moves[..k])
      invariant tailVisits == Visits(knots, moves[..k])
    {
      ghost var before := rope[..];
      ghost var seen := tailVisits;
      var states := MoveRope(rope, moves[k]);
      StatesTails(before, moves[k], states);
      tailVisits := InsertTails(tailVisits, states, lastKnot);
      RunStep(knots, moves, k);
      assert tailVisits == seen + Tails(before, moves[k]);
    }
    assert moves[..|moves|] == moves;
    count := |tailVisits|;
  }

  /** The last knot of each of the ropes. */
  function LastKnots(states: seq<seq<Coord>>, last: nat): set<Coord>
    requires forall k | 0 <= k < |states| :: last < |states[k]|
  {
    if states == [] then {} else LastKnots(states[..|states| - 1], last) + {states[|states| - 1][last]}
  }

  /** The `after_step` callback of `day_09`, for each rope `move_rope` passes it in turn:
      `tail_visits.insert(rope[last_knot_idx])`. */
  method InsertTails(visits: set<Coord>, states: seq<seq<Coord>>, last: nat) returns (out: set<Coord>)
    requires forall k | 0 <= k < |states| :: last < |states[k]|
    ensures out == visits + LastKnots(states, last)
  {
    out := visits;
    for s := 0 to |states|
      invariant out == visits + LastKnots(states[..s], last)
    {
      assert states[..s + 1][..s] == states[..s];
      out := out + {states[s][last]};
    }
    assert states[..|states|] == states;
  }

  /** The ropes `move_rope` reports end in the tails of the move. */
  lemma StatesTails(rope: seq<Coord>, m: Coord, states: seq<seq<Coord>>)
    requires |rope| > 0 && |states| == HeadSteps(m)
    requires forall k | 0 <= k < |states| :: states[k] == Steps(rope, Unit(m), k + 1)
    ensures forall k | 0 <= k < |states| :: |rope| - 1 < |states[k]|
    ensures LastKnots(states, |rope| - 1) == Tails(rope, m)
  {
    if HeadSteps(m) > 0 {
      LastKnotsOfSteps(rope, Unit(m), states, |states|);
      assert states[..|states|] == states;
    }
  }

  lemma {:induction false} LastKnotsOfSteps(rope: seq<Coord>, u: Coord, states: seq<seq<Coord>>, n: nat)
    requires |rope| > 0 && n <= |states|
    requires forall k | 0 <= k < |states| :: states[k] == Steps(rope, u, k + 1)
    ensures forall k | 0 <= k < n :: |rope| - 1 < |states[..n][k]|
    ensures LastKnots(states[..n], |rope| - 1) == TailsUpTo(rope, u, n)
    decreases n
  {
    if n > 0 {
      LastKnotsOfSteps(rope, u, states, n - 1);
      assert states[..n][..n - 1] == states[..n - 1];
    }
  }

  lemma RunStep(rope: seq<Coord>, moves: seq<Coord>, k: nat)
    requires |rope| > 0 && k < |moves|
    ensures Run(rope, moves[..k + 1]) == Final(Run(rope, moves[..k]), moves[k])
    ensures Visits(rope, moves[..k + 1]) == Visits(rope, moves[..k]) + Tails(Run(rope, moves[..k]), moves[k])
  {
    var ms := moves[..k + 1];
    assert ms[..|ms| - 1] == moves[..k];
    assert ms[|ms| - 1] == moves[k];
  }

  /** `part_1`: a rope of two knots, both at the origin. */
  method Part1(lines: seq<string>) returns (count: nat)
    requires MovesFromFile(lines).Some?
    ensures count == |Visits([(0, 0), (0, 0)], MovesFromFile(lines).value)|
  {
    count := Day09(lines, [(0, 0), (0, 0)]);
  }

  /** `part_2`: ten knots, all at the origin. */
  method Part2(lines: seq<string>) returns (count: nat)
    requires MovesFromFile(lines).Some?
    ensures count == |Visits(seq(10, _ => (0, 0)), MovesFromFile(lines).value)|
  {
    count := Day09(lines, seq(10, _ => (0, 0)));
  }

  /** The number of unit steps of all the moves. */
  function TotalSteps(moves: seq<Coord>): nat
  {
    if moves == [] then 0 else TotalSteps(moves[..|moves| - 1]) + HeadSteps(moves[|moves| - 1])
  }

  lemma {:induction false} TailsUpToBound(rope: seq<Coord>, u: Coord, n: nat)
    requires |rope| > 0
    ensures |TailsUpTo(rope, u, n)| <= n
    ensures n > 0 ==> |TailsUpTo(rope, u, n)| > 0
    decreases n
  {
    if n > 0 {
      TailsUpToBound(rope, u, n - 1);
    }
  }

  /** The tail cannot visit more places than there are steps; with at least one step it visits
      at least one. */
  lemma {:induction false} VisitsBound(rope: seq<Coord>, moves: seq<Coord>)
    requires |rope| > 0
    ensures |Visits(rope, moves)| <= TotalSteps(moves)
    ensures TotalSteps(moves) > 0 ==> |Visits(rope, moves)| > 0
    decreases |moves|
  {
    if moves != [] {
      var init := moves[..|moves| - 1];
      VisitsBound(rope, init);
      var m := moves[|moves| - 1];
      if HeadSteps(m) > 0 {
        TailsUpToBound(Run(rope, init), Unit(m), HeadSteps(m));
      }
      SetUnionBound(Visits(rope, init), Tails(Run(rope, init), m));
    }
  }

  lemma SetUnionBound(a: set<Coord>, b: set<Coord>)
    ensures |a + b| <= |a| + |b|
    ensures |a + b| >= |a| && |a + b| >= |b|
  {
    assert a + b == a + (b - a);
    assert |a + (b - a)| == |a| + |b - a|;
    assert (b - a) <= b;
  }

  /** A taut rope stays taut for any sequence of axis-aligned moves. */
  lemma {:induction false} RunTaut(rope: seq<Coord>, moves: seq<Coord>)
    requires Taut(rope)
    requires forall i | 0 <= i < |moves| :: AxisAligned(moves[i])
    ensures Taut(Run(rope, moves))
    decreases |moves|
  {
    if moves != [] {
      RunTaut(rope, moves[..|moves| - 1]);
      FinalTaut(Run(rope, moves[..|moves| - 1]), moves[|moves| - 1]);
    }
  }

  /** The x and y sums of the moves. */
  function Displacement(moves: seq<Coord>): Coord
  {
    if moves == [] then (0, 0)
    else (Displacement(moves[..|moves| - 1]).0 + moves[|moves| - 1].0, Displacement(moves[..|moves| - 1]).1 + moves[|moves| - 1].1)
  }

  /** The head ends displaced by the sum of the moves. */
  lemma {:induction false} RunHead(rope: seq<Coord>, moves: seq<Coord>)
    requires |rope| > 0
    requires forall i | 0 <= i < |moves| :: AxisAligned(moves[i])
    ensures Run(rope, moves)[0] == (rope[0].0 + Displacement(moves).0, rope[0].1 + Displacement(moves).1)
    decreases |moves|
  {
    if moves != [] {
      RunHead(rope, moves[..|moves| - 1]);
      FinalHead(Run(rope, moves[..|moves| - 1]), moves[|moves| - 1]);
    }
  }

  // ---------------------------------------------------------------------------------------------
  // The rstest cases of `move_rope`

  lemma StepOfTwo(a: Coord, b: Coord, u: Coord)
    ensures Step([a, b], u) == [(a.0 + u.0, a.1 + u.1), Follow((a.0 + u.0, a.1 + u.1), b)]
  {
    var next := Step([a, b], u);
    assert next[0] == Moved([a, b], u, 0) == (a.0 + u.0, a.1 + u.1);
    assert next[1] == Moved([a, b], u, 1) == Follow(next[0], b);
  }

  lemma StepOfThree(a: Coord, b: Coord, c: Coord, u: Coord)
    ensures Step([a, b, c], u)
         == [(a.0 + u.0, a.1 + u.1), Follow((a.0 + u.0, a.1 + u.1), b), Follow(Follow((a.0 + u.0, a.1 + u.1), b), c)]
  {
    var next := Step([a, b, c], u);
    assert next[0] == Moved([a, b, c], u, 0) == (a.0 + u.0, a.1 + u.1);
    assert next[1] == Moved([a, b, c], u, 1) == Follow(next[0], b);
    assert next[2] == Moved([a, b, c], u, 2) == Follow(next[1], c);
  }

  lemma ExampleOnTop()
    ensures Final([(4, 5), (5, 5)], (1, 0)) == [(5, 5), (5, 5)]
  {
    assert Unit((1, 0)) == (1, 0);
    StepOfTwo((4, 5), (5, 5), (1, 0));
    assert Steps([(4, 5), (5, 5)], (1, 0), 1) == [(5, 5), (5, 5)];
  }

  lemma ExampleOneLeft()
    ensures Final([(5, 5), (5, 5)], (-1, 0)) == [(4, 5), (5, 5)]
  {
    assert Unit((-1, 0)) == (-1, 0);
    StepOfTwo((5, 5), (5, 5), (-1, 0));
    assert Steps([(5, 5), (5, 5)], (-1, 0), 1) == [(4, 5), (5, 5)];
  }

  lemma ExampleOneRight()
    ensures Final([(5, 5), (5, 5)], (1, 0)) == [(6, 5), (5, 5)]
  {
    assert Unit((1, 0)) == (1, 0);
    StepOfTwo((5, 5), (5, 5), (1, 0));
    assert Steps([(5, 5), (5, 5)], (1, 0), 1) == [(6, 5), (5, 5)];
  }

  lemma ExampleOneUp()
    ensures Final([(5, 5), (5, 5)], (0, 1)) == [(5, 6), (5, 5)]
  {
    assert Unit((0, 1)) == (0, 1);
    StepOfTwo((5, 5), (5, 5), (0, 1));
    assert Steps([(5, 5), (5, 5)], (0, 1), 1) == [(5, 6), (5, 5)];
  }

  lemma ExampleOneDown()
    ensures Final([(5, 5), (5, 5)], (0, -1)) == [(5, 4), (5, 5)]
  {
    assert Unit((0, -1)) == (0, -1);
    StepOfTwo((5, 5), (5, 5), (0, -1));
    assert Steps([(5, 5), (5, 5)], (0, -1), 1) == [(5, 4), (5, 5)];
  }

  lemma ExampleNe()
    ensures Final([(5, 6), (5, 5)], (1, 0)) == [(6, 6), (5, 5)]
  {
    assert Unit((1, 0)) == (1, 0);
    StepOfTwo((5, 6), (5, 5), (1, 0));
    assert Steps([(5, 6), (5, 5)], (1, 0), 1) == [(6, 6), (5, 5)];
  }

  lemma ExampleSe()
    ensures Final([(4, 4), (5, 5)], (2, 0)) == [(6, 4), (5, 5)]
  {
    assert Unit((2, 0)) == (1, 0);
    StepOfTwo((4, 4), (5, 5), (1, 0));
    assert Steps([(4, 4), (5, 5)], (1, 0), 1) == [(5, 4), (5, 5)];
    StepOfTwo((5, 4), (5, 5), (1, 0));
    assert Steps([(4, 4), (5, 5)], (1, 0), 2) == [(6, 4), (5, 5)];
  }

  lemma ExampleSw()
    ensures Final([(5, 4), (5, 5)], (-1, 0)) == [(4, 4), (5, 5)]
  {
    assert Unit((-1, 0)) == (-1, 0);
    StepOfTwo((5, 4), (5, 5), (-1, 0));
    assert Steps([(5, 4), (5, 5)], (-1, 0), 1) == [(4, 4), (5, 5)];
  }

  lemma ExampleNw()
    ensures Final([(5, 6), (5, 5)], (-1, 0)) == [(4, 6), (5, 5)]
  {
    assert Unit((-1, 0)) == (-1, 0);
    StepOfTwo((5, 6), (5, 5), (-1, 0));
    assert Steps([(5, 6), (5, 5)], (-1, 0), 1) == [(4, 6), (5, 5)];
  }

  lemma ExampleNne()
    ensures Final([(6, 6), (5, 5)], (0, 1)) == [(6, 7), (6, 6)]
  {
    assert Unit((0, 1)) == (0, 1);
    StepOfTwo((6, 6), (5, 5), (0, 1));
    assert Steps([(6, 6), (5, 5)], (0, 1), 1) == [(6, 7), (6, 6)];
  }

  lemma ExampleSse()
    ensures Final([(6, 6), (5, 5)], (0, -3)) == [(6, 3), (6, 4)]
  {
    assert Unit((0, -3)) == (0, -1);
    StepOfTwo((6, 6), (5, 5), (0, -1));
    assert Steps([(6, 6), (5, 5)], (0, -1), 1) == [(6, 5), (5, 5)];
    StepOfTwo((6, 5), (5, 5), (0, -1));
    assert Steps([(6, 6), (5, 5)], (0, -1), 2) == [(6, 4), (5, 5)];
    StepOfTwo((6, 4), (5, 5), (0, -1));
    assert Steps([(6, 6), (5, 5)], (0, -1), 3) == [(6, 3), (6, 4)];
  }

  lemma ExampleSsw()
    ensures Final([(4, 5), (5, 5)], (0, -2)) == [(4, 3), (4, 4)]
  {
    assert Unit((0, -2)) == (0, -1);
    StepOfTwo((4, 5), (5, 5), (0, -1));
    assert Steps([(4, 5), (5, 5)], (0, -1), 1) == [(4, 4), (5, 5)];
    StepOfTwo((4, 4), (5, 5), (0, -1));
    assert Steps([(4, 5), (5, 5)], (0, -1), 2) == [(4, 3), (4, 4)];
  }

  lemma ExampleNnw()
    ensures Final([(4, 4), (5, 5)], (0, 3)) == [(4, 7), (4, 6)]
  {
    assert Unit((0, 3)) == (0, 1);
    StepOfTwo((4, 4), (5, 5), (0, 1));
    assert Steps([(4, 4), (5, 5)], (0, 1), 1) == [(4, 5), (5, 5)];
    StepOfTwo((4, 5), (5, 5), (0, 1));
    assert Steps([(4, 4), (5, 5)], (0, 1), 2) == [(4, 6), (5, 5)];
    StepOfTwo((4, 6), (5, 5), (0, 1));
    assert Steps([(4, 4), (5, 5)], (0, 1), 3) == [(4, 7), (4, 6)];
  }

  lemma ExampleEne()
    ensures Final([(5, 6), (5, 5)], (2, 0)) == [(7, 6), (6, 6)]
  {
    assert Unit((2, 0)) == (1, 0);
    StepOfTwo((5, 6), (5, 5), (1, 0));
    assert Steps([(5, 6), (5, 5)], (1, 0), 1) == [(6, 6), (5, 5)];
    StepOfTwo((6, 6), (5, 5), (1, 0));
    assert Steps([(5, 6), (5, 5)], (1, 0), 2) == [(7, 6), (6, 6)];
  }

  lemma ExampleEse()
    ensures Final([(5, 4), (5, 5)], (2, 0)) == [(7, 4), (6, 4)]
  {
    assert Unit((2, 0)) == (1, 0);
    StepOfTwo((5, 4), (5, 5), (1, 0));
    assert Steps([(5, 4), (5, 5)], (1, 0), 1) == [(6, 4), (5, 5)];
    StepOfTwo((6, 4), (5, 5), (1, 0));
    assert Steps([(5, 4), (5, 5)], (1, 0), 2) == [(7, 4), (6, 4)];
  }

  lemma ExampleWsw()
    ensures Final([(3, 3), (4, 4)], (0, 1)) == [(3, 4), (4, 4)]
  {
    assert Unit((0, 1)) == (0, 1);
    StepOfTwo((3, 3), (4, 4), (0, 1));
    assert Steps([(3, 3), (4, 4)], (0, 1), 1) == [(3, 4), (4, 4)];
  }

  lemma ExampleWnw()
    ensures Final([(5, 6), (5, 5)], (-2, 0)) == [(3, 6), (4, 6)]
  {
    assert Unit((-2, 0)) == (-1, 0);
    StepOfTwo((5, 6), (5, 5), (-1, 0));
    assert Steps([(5, 6), (5, 5)], (-1, 0), 1) == [(4, 6), (5, 5)];
    StepOfTwo((4, 6), (5, 5), (-1, 0));
    assert Steps([(5, 6), (5, 5)], (-1, 0), 2) == [(3, 6), (4, 6)];
  }

  /** Steps compose: `a` steps then `b` steps are `a + b` steps. */
  lemma {:induction false} StepsAdd(rope: seq<Coord>, u: Coord, a: nat, b: nat)
    ensures Steps(rope, u, a + b) == Steps(Steps(rope, u, a), u, b)
    decreases b
  {
    if b > 0 {
      StepsAdd(rope, u, a, b - 1);
    }
  }

  lemma LineFirstHalf()
    ensures Steps([(-1, 0), (-1, 0), (-1, 0)], (1, 0), 3) == [(2, 0), (1, 0), (0, 0)]
  {
    StepOfThree((-1, 0), (-1, 0), (-1, 0), (1, 0));
    assert Steps([(-1, 0), (-1, 0), (-1, 0)], (1, 0), 1) == [(0, 0), (-1, 0), (-1, 0)];
    StepOfThree((0, 0), (-1, 0), (-1, 0), (1, 0));
    assert Steps([(-1, 0), (-1, 0), (-1, 0)], (1, 0), 2) == [(1, 0), (0, 0), (-1, 0)];
    StepOfThree((1, 0), (0, 0), (-1, 0), (1, 0));
  }

  lemma LineSecondHalf()
    ensures Steps([(2, 0), (1, 0), (0, 0)], (1, 0), 3) == [(5, 0), (4, 0), (3, 0)]
  {
    StepOfThree((2, 0), (1, 0), (0, 0), (1, 0));
    assert Steps([(2, 0), (1, 0), (0, 0)], (1, 0), 1) == [(3, 0), (2, 0), (1, 0)];
    StepOfThree((3, 0), (2, 0), (1, 0), (1, 0));
    assert Steps([(2, 0), (1, 0), (0, 0)], (1, 0), 2) == [(4, 0), (3, 0), (2, 0)];
    StepOfThree((4, 0), (3, 0), (2, 0), (1, 0));
  }

  lemma ExampleLineOfThree()
    ensures Final([(-1, 0), (-1, 0), (-1, 0)], (6, 0)) == [(5, 0), (4, 0), (3, 0)]
  {
    assert Unit((6, 0)) == (1, 0);
    StepsAdd([(-1, 0), (-1, 0), (-1, 0)], (1, 0), 3, 3);
    LineFirstHalf();
    LineSecondHalf();
  }

  /** `test_move_rope_callback`: a move of `(5, 0)` calls `after_step` five times. */
  lemma ExampleCallbackCount()
    ensures HeadSteps((5, 0)) == 5
  {
  }
}
