/** Day 10: a one-register CPU. `noop` takes one cycle; `addx a` takes two and adds `a` to X
    at the end of the second. The program's trace lists X during every cycle. */
module Day10 {
  import opened Util
  import opened Text

  /** `None` is `noop`, `Some(a)` is `addx a`. */
  type Instruction = Option<int>

  // ---------------------------------------------------------------------------------------------
  // `run_program`

  /** What one instruction adds to X in each of its cycles (`vec![0, a]` or `vec![0]`). */
  function Increments(instruction: Instruction): seq<int>
  {
    match instruction
    case Some(a) => [0, a]
    case None => [0]
  }

  /** The per-cycle increments of the whole program (the `flatten`). */
  function Deltas(program: seq<Instruction>): seq<int>
  {
    if program == [] then [] else Increments(program[0]) + Deltas(program[1..])
  }

  /** The `map` over the increments with the captured `x`: each entry is X after adding. */
  function Scan(x: int, deltas: seq<int>): (xs: seq<int>)
    ensures |xs| == |deltas|
    decreases |deltas|
  {
    if deltas == [] then [] else [x + deltas[0]] + Scan(x + deltas[0], deltas[1..])
  }

  /** `run_program`: X starts at 1, followed by X after each cycle. Entry `k` (0-based) is X
      during cycle `k + 1`. */
  function RunProgram(program: seq<Instruction>): (xs: seq<int>)
    ensures |xs| == 1 + |Deltas(program)|
  {
    [1] + Scan(1, Deltas(program))
  }

  /** The trace entries one instruction contributes, when X was `x` before it. */
  function Entries(x: int, instruction: Instruction): seq<int>
  {
    match instruction
    case Some(a) => [x, x + a]
    case None => [x]
  }

  function Noops(program: seq<Instruction>): nat
  {
    if program == [] then 0 else Noops(program[..|program| - 1]) + (if program[|program| - 1].None? then 1 else 0)
  }

  function Addxs(program: seq<Instruction>): nat
  {
    if program == [] then 0 else Addxs(program[..|program| - 1]) + (if program[|program| - 1].Some? then 1 else 0)
  }

  /** The arguments of the program's `addx` instructions, in order. */
  function Arguments(program: seq<Instruction>): seq<int>
  {
    if program == [] then []
    else Arguments(program[..|program| - 1]) + (match program[|program| - 1] case Some(a) => [a] case None => [])
  }

  lemma {:induction false} DeltasAppend(program: seq<Instruction>, instruction: Instruction)
    ensures Deltas(program + [instruction]) == Deltas(program) + Increments(instruction)
    decreases |program|
  {
    if program == [] {
      assert [] + [instruction] == [instruction];
    } else {
      assert (program + [instruction])[1..] == program[1..] + [instruction];
      DeltasAppend(program[1..], instruction);
    }
  }

  /** Scanning two runs of increments one after the other continues from the first's last X. */
  lemma {:induction false} ScanAppend(x: int, ds: seq<int>, es: seq<int>)
    ensures Scan(x, ds + es) == Scan(x, ds) + Scan(if ds == [] then x else Scan(x, ds)[|ds| - 1], es)
    decreases |ds|
  {
    if ds == [] {
      assert ds + es == es;
    } else {
      assert (ds + es)[1..] == ds[1..] + es;
      ScanAppend(x + ds[0], ds[1..], es);
    }
  }

  /** Running one more instruction appends its entries, which start from the last X: X changes only
      at the end of an `addx`, by its argument. */
  lemma RunProgramAppend(program: seq<Instruction>, instruction: Instruction)
    ensures RunProgram(program + [instruction])
         == RunProgram(program) + Entries(RunProgram(program)[|RunProgram(program)| - 1], instruction)
  {
    var ds := Deltas(program);
    DeltasAppend(program, instruction);
    ScanAppend(1, ds, Increments(instruction));
    var x := if ds == [] then 1 else Scan(1, ds)[|ds| - 1];
    assert RunProgram(program)[|RunProgram(program)| - 1] == x;
  }

  /** The trace has one entry per cycle plus the initial one. */
  lemma {:induction false} RunProgramLength(program: seq<Instruction>)
    ensures |RunProgram(program)| == 1 + Noops(program) + 2 * Addxs(program)
    decreases |program|
  {
    if program != [] {
      var init := program[..|program| - 1];
      RunProgramLength(init);
      assert init + [program[|program| - 1]] == program;
      RunProgramAppend(init, program[|program| - 1]);
    }
  }

  /** The trace starts at 1 and ends at 1 plus the sum of the `addx` arguments. */
  lemma {:induction false} RunProgramEnds(program: seq<Instruction>)
    ensures RunProgram(program)[0] == 1
    ensures RunProgram(program)[|RunProgram(program)| - 1] == 1 + Sum(Arguments(program))
    decreases |program|
  {
    if program != [] {
      var init := program[..|program| - 1];
      var last := program[|program| - 1];
      RunProgramEnds(init);
      assert init + [last] == program;
      RunProgramAppend(init, last);
      var before := RunProgram(init)[|RunProgram(init)| - 1];
      if last.Some? {
        SumAppend(Arguments(init), [last.value]);
        assert Arguments(program) == Arguments(init) + [last.value];
        assert RunProgram(program)[|RunProgram(program)| - 1] == before + last.value;
      } else {
        assert Arguments(program) == Arguments(init) + [];
        assert Arguments(init) + [] == Arguments(init);
        assert RunProgram(program)[|RunProgram(program)| - 1] == before;
      }
    }
  }

  lemma {:induction false} ScanAt(x: int, ds: seq<int>, k: nat)
    requires k < |ds|
    ensures Scan(x, ds)[k] == x + Sum(ds[..k + 1])
    decreases k
  {
    if k == 0 {
      assert ds[..1] == [ds[0]];
      assert Sum([ds[0]]) == Sum([]) + ds[0];
    } else {
      ScanAt(x + ds[0], ds[1..], k - 1);
      assert ds[..k + 1] == [ds[0]] + ds[1..][..k];
      SumAppend([ds[0]], ds[1..][..k]);
      assert Sum([ds[0]]) == Sum([]) + ds[0];
    }
  }

  /** X during cycle `k + 1` is one plus every increment of the first `k` cycles. */
  lemma RunProgramAt(program: seq<Instruction>, k: nat)
    requires k < |RunProgram(program)|
    ensures RunProgram(program)[k] == 1 + Sum(Deltas(program)[..k])
  {
    if k > 0 {
      ScanAt(1, Deltas(program), k - 1);
    }
  }

  /** `test_run_program`. */
  lemma ExampleRunProgram()
    ensures RunProgram([None, Some(3), Some(-5)]) == [1, 1, 1, 4, 4, -1]
  {
    RunProgramAppend([], None);
    assert [None] + [Some(3)] == [None, Some(3)];
    RunProgramAppend([None], Some(3));
    assert [None, Some(3)] + [Some(-5)] == [None, Some(3), Some(-5)];
    RunProgramAppend([None, Some(3)], Some(-5));
  }

  // ---------------------------------------------------------------------------------------------
  // `program_from_file`

  /** One line: `noop`, or `addx ` and a number; anything else panics (`None`). */
  function ParseInstruction(line: string): Option<Instruction>
  {
    if line == "noop" then Some(None)
    else if !StartsWith(line, "addx ") then None
    else
      match ParseInt(line[5..])
      case None => None
      case Some(a) => Some(Some(a))
  }

  function RenderInstruction(instruction: Instruction): string
  {
    match instruction
    case None => "noop"
    case Some(a) => "addx " + ShowInt(a)
  }

  lemma ParseAddx(line: string, a: int)
    requires line == "addx " + ShowInt(a)
    ensures ParseInstruction(line) == Some(Some(a))
  {
    assert line[..5] == "addx ";
    assert line[5..] == ShowInt(a);
    ParseShowInt(a);
    assert |line| > 4;
  }

  lemma ParseRenderInstruction(instruction: Instruction)
    ensures ParseInstruction(RenderInstruction(instruction)) == Some(instruction)
  {
    if instruction.Some? {
      ParseAddx(RenderInstruction(instruction), instruction.value);
    }
  }

  /** `program_from_file` on the lines of the file: one instruction per line, or `None` where
      some line would panic. */
  function ProgramFromFile(lines: seq<string>): (program: Option<seq<Instruction>>)
    ensures program.Some? ==> |program.value| == |lines|
  {
    if lines == [] then Some([])
    else
      match ParseInstruction(lines[0])
      case None => None
      case Some(i) =>
        match ProgramFromFile(lines[1..])
        case None => None
        case Some(rest) => Some([i] + rest)
  }

  /** Each instruction is its line parsed; no result means some line does not parse. */
  lemma {:induction false} ProgramFromFileMeaning(lines: seq<string>)
    ensures ProgramFromFile(lines).Some? ==>
              forall i | 0 <= i < |lines| :: ParseInstruction(lines[i]) == Some(ProgramFromFile(lines).value[i])
    ensures ProgramFromFile(lines).None? <==> exists i | 0 <= i < |lines| :: ParseInstruction(lines[i]).None?
    decreases |lines|
  {
    if lines != [] {
      ProgramFromFileMeaning(lines[1..]);
      if ParseInstruction(lines[0]).Some? && ProgramFromFile(lines[1..]).Some? {
        var program := ProgramFromFile(lines).value;
        forall i | 0 <= i < |lines| ensures ParseInstruction(lines[i]) == Some(program[i]) {
          if i > 0 {
            assert lines[i] == lines[1..][i - 1];
          }
        }
      } else if ParseInstruction(lines[0]).Some? {
        var i :| 0 <= i < |lines[1..]| && ParseInstruction(lines[1..][i]).None?;
        assert ParseInstruction(lines[i + 1]).None?;
      }
      forall i | 0 < i < |lines| && ParseInstruction(lines[i]).None? ensures ProgramFromFile(lines).None? {
        assert lines[1..][i - 1] == lines[i];
      }
    }
  }

  /** Rendering a program one instruction per line and reading it back gives the program. */
  lemma {:induction false} ProgramFromRendered(lines: seq<string>, program: seq<Instruction>)
    requires |lines| == |program|
    requires forall i | 0 <= i < |program| :: lines[i] == RenderInstruction(program[i])
    ensures ProgramFromFile(lines) == Some(program)
    decreases |program|
  {
    if program != [] {
      ProgramFromRendered(lines[1..], program[1..]);
      ParseRenderInstruction(program[0]);
      assert [program[0]] + program[1..] == program;
    }
  }

  /** The lines of `test10.txt`. */
  function ExampleProgramLines(): seq<string>
  {
    [RenderInstruction(None), RenderInstruction(Some(3)), RenderInstruction(Some(-5))]
  }

  lemma ExampleProgramLinesText()
    ensures ExampleProgramLines() == ["noop", "addx 3", "addx -5"]
  {
    assert ShowInt(3) == "3" && ShowInt(-5) == "-5";
    assert RenderInstruction(Some(3)) == "addx " + "3" == "addx 3";
    assert RenderInstruction(Some(-5)) == "addx " + "-5" == "addx -5";
  }

  /** `test_program_from_file`. */
  lemma ExampleProgramFromFile()
    ensures ProgramFromFile(ExampleProgramLines()) == Some([None, Some(3), Some(-5)])
  {
    ProgramFromRendered(ExampleProgramLines(), [None, Some(3), Some(-5)]);
  }

  // ---------------------------------------------------------------------------------------------
  // `part_1`

  /** The `fold` of `part_1`: the sum of `cycle * x_values[cycle - 1]` over the cycles. The trace
      must reach every cycle (the index panics otherwise). */
  function SignalStrength(xs: seq<int>, cycles: seq<nat>): int
    requires forall i | 0 <= i < |cycles| :: 1 <= cycles[i] <= |xs|
  {
    if cycles == [] then 0
    else SignalStrength(xs, cycles[..|cycles| - 1]) + cycles[|cycles| - 1] * xs[cycles[|cycles| - 1] - 1]
  }

  /** `part_1`, on the parsed program. */
  function Part1(program: seq<Instruction>): int
    requires |RunProgram(program)| >= 220
  {
    SignalStrength(RunProgram(program), [20, 60, 100, 140, 180, 220])
  }

  /** X during cycle `c`: one plus the increments of the cycles before it. */
  function XDuring(program: seq<Instruction>, c: nat): int
    requires 1 <= c <= |Deltas(program)| + 1
  {
    1 + Sum(Deltas(program)[..c - 1])
  }

  /** `part_1` is the sum of each sampled cycle times X during that cycle. */
  lemma Part1Meaning(program: seq<Instruction>)
    requires |RunProgram(program)| >= 220
    ensures Part1(program)
         == 20 * XDuring(program, 20) + 60 * XDuring(program, 60) + 100 * XDuring(program, 100)
          + 140 * XDuring(program, 140) + 180 * XDuring(program, 180) + 220 * XDuring(program, 220)
  {
    var xs := RunProgram(program);
    SampledCycles(xs);
    RunProgramAt(program, 19);
    RunProgramAt(program, 59);
    RunProgramAt(program, 99);
    RunProgramAt(program, 139);
    RunProgramAt(program, 179);
    RunProgramAt(program, 219);
  }

  /** The fold over the six sampled cycles, written out. */
  lemma SampledCycles(xs: seq<int>)
    requires |xs| >= 220
    ensures SignalStrength(xs, [20, 60, 100, 140, 180, 220])
         == 20 * xs[19] + 60 * xs[59] + 100 * xs[99] + 140 * xs[139] + 180 * xs[179] + 220 * xs[219]
  {
    FirstSampledCycles(xs);
    SignalStrengthSnoc(xs, [20, 60, 100], 140);
    assert [20, 60, 100] + [140] == [20, 60, 100, 140];
    SignalStrengthSnoc(xs, [20, 60, 100, 140], 180);
    assert [20, 60, 100, 140] + [180] == [20, 60, 100, 140, 180];
    SignalStrengthSnoc(xs, [20, 60, 100, 140, 180], 220);
    assert [20, 60, 100, 140, 180] + [220] == [20, 60, 100, 140, 180, 220];
  }

  lemma FirstSampledCycles(xs: seq<int>)
    requires |xs| >= 220
    ensures SignalStrength(xs, [20, 60, 100]) == 20 * xs[19] + 60 * xs[59] + 100 * xs[99]
  {
    SignalStrengthSnoc(xs, [], 20);
    assert [] + [20] == [20];
    SignalStrengthSnoc(xs, [20], 60);
    assert [20] + [60] == [20, 60];
    SignalStrengthSnoc(xs, [20, 60], 100);
    assert [20, 60] + [100] == [20, 60, 100];
  }

  lemma SignalStrengthSnoc(xs: seq<int>, cycles: seq<nat>, c: nat)
    requires forall i | 0 <= i < |cycles| :: 1 <= cycles[i] <= |xs|
    requires 1 <= c <= |xs|
    ensures SignalStrength(xs, cycles + [c]) == SignalStrength(xs, cycles) + c * xs[c - 1]
  {
    var all := cycles + [c];
    assert forall i | 0 <= i < |all| :: all[i] == if i < |cycles| then cycles[i] else c;
    assert all[..|cycles|] == cycles;
  }

  // ---------------------------------------------------------------------------------------------
  // `part_2`

  /** A CRT pixel: lit when the three-wide sprite centred on X covers the column. */
  function Pixel(sprite: int, col: int): char
  {
    if sprite - 1 <= col && col <= sprite + 1 then '#' else '.'
  }

  /** One 40-pixel CRT row, drawn while cycles `40 * row + 1 ..= 40 * row + 40` run. */
  function RowPixels(xs: seq<int>, row: nat): (line: string)
    requires 40 * row + 40 <= |xs|
    ensures |line| == 40
  {
    seq(40, col requires 0 <= col < 40 => Pixel(xs[40 * row + col], col))
  }

  /** The first `rows` rows of the screen, each followed by a newline. */
  function Screen(xs: seq<int>, rows: nat): (screen: string)
    requires 40 * rows <= |xs|
    ensures |screen| == 41 * rows
  {
    if rows == 0 then "" else Screen(xs, rows - 1) + RowPixels(xs, rows - 1) + "\n"
  }

  /** `part_2`: six rows of 40 pixels, each row followed by a newline. The trace must cover the
      240 cycles (the index panics otherwise). */
  method Part2(program: seq<Instruction>) returns (output: string)
    requires |RunProgram(program)| >= 240
    ensures output == Screen(RunProgram(program), 6)
  {
    var spritePositions := RunProgram(program);
    output := "";
    for row := 0 to 6
      invariant output == Screen(spritePositions, row)
    {
      for col := 0 to 40
        invariant output == Screen(spritePositions, row) + RowPixels(spritePositions, row)[..col]
      {
        var pixel := 40 * row + col;
        var spritePos := spritePositions[pixel];
        if spritePos - 1 <= col && col <= spritePos + 1 {
          output := output + "#";
        } else {
          output := output + ".";
        }
        assert RowPixels(spritePositions, row)[..col + 1] == RowPixels(spritePositions, row)[..col] + [Pixel(spritePos, col)];
      }
      assert RowPixels(spritePositions, row)[..40] == RowPixels(spritePositions, row);
      output := output + "\n";
    }
  }

  /** The screen is `rows` lines of 40 pixels and a newline; the pixel in column `c` of row `r`
      is lit exactly when X during that pixel's cycle is within one of `c`. */
  lemma {:induction false} ScreenAt(xs: seq<int>, rows: nat, r: nat, c: nat)
    requires 40 * rows <= |xs| && r < rows && c < 40
    ensures Screen(xs, rows)[41 * r + c] == (if -1 <= xs[40 * r + c] - c <= 1 then '#' else '.')
    ensures Screen(xs, rows)[41 * r + 40] == '\n'
    decreases rows
  {
    if r < rows - 1 {
      ScreenAt(xs, rows - 1, r, c);
      assert Screen(xs, rows) == Screen(xs, rows - 1) + (RowPixels(xs, rows - 1) + "\n");
    } else {
      var prefix := Screen(xs, rows - 1);
      assert Screen(xs, rows) == prefix + (RowPixels(xs, rows - 1) + "\n");
      assert |prefix| == 41 * r;
      assert Screen(xs, rows)[41 * r + c] == RowPixels(xs, r)[c];
    }
  }
}
