/** Day 5: stacks of crates. The lines before the first blank line draw the stacks, one
    layer per line with the top layer first; each later line "move n from a to b" moves
    crates between stacks, one at a time (part 1) or as a block (part 2). The answer is
    the top crate of every stack. */
module Day05 {
  import opened Util
  import opened Text

  /** One `VecDeque` per stack; the front of each sequence is the top of the stack. */
  type Stacks = seq<seq<char>>

  /** The crate that chunk `i` (bytes `4 * i` to `4 * i + 3`) of a layer contributes to stack `i`:
      the byte after a `[`, or nothing. */
  function Crate(layer: string, i: nat): seq<char>
  {
    if 4 * i + 1 < |layer| && layer[4 * i] == '[' then [layer[4 * i + 1]] else []
  }

  /** The number of chunks `chunks(4)` cuts a layer into. */
  function ChunkCount(layer: string): nat
  {
    (|layer| + 3) / 4
  }

  /** Only the last chunk can be a single byte; if that byte is `[`, reading the crate
      after it panics. */
  predicate Readable(layer: string)
  {
    !(|layer| % 4 == 1 && layer[|layer| - 1] == '[')
  }

  /** The stacks after one more layer: there is a stack for every chunk, and each chunk's
      crate goes to the bottom of its stack. */
  function WithLayer(stacks: Stacks, layer: string): (r: Stacks)
    ensures |r| == Max(|stacks|, ChunkCount(layer))
  {
    seq(Max(|stacks|, ChunkCount(layer)), i requires 0 <= i => (if i < |stacks| then stacks[i] else []) + Crate(layer, i))
  }

  lemma LastChunk(i: nat, n: nat)
    requires n == 4 * i + 1
    ensures n % 4 == 1
  {
  }

  lemma ChunkCountIs(layer: string, i: nat)
    requires |layer| <= 4 * i && (i == 0 || 4 * (i - 1) < |layer|)
    ensures ChunkCount(layer) == i
  {
  }

  /** The loop over `layer.as_bytes().chunks(4).enumerate()`. */
  method ReadLayer(stacks: Stacks, layer: string) returns (result: Stacks)
    requires Readable(layer)
    ensures result == WithLayer(stacks, layer)
  {
    result := stacks;
    var i := 0;
    var start := 0;
    while start < |layer|
      invariant start == 4 * i
      invariant i == 0 || 4 * (i - 1) < |layer|
      invariant |result| == Max(|stacks|, i)
      invariant forall j | 0 <= j < |result| ::
        result[j] == (if j < |stacks| then stacks[j] else []) + (if j < i then Crate(layer, j) else [])
    {
      if |result| <= i {
        // `stacks.insert(i, ..)` with `i` equal to the length: a new stack at the end
        result := result + [[]];
      }
      if layer[start] == '[' {
        if start + 1 == |layer| {
          LastChunk(i, |layer|);
          assert false;
        }
        result := result[i := result[i] + [layer[start + 1]]];
      }
      start := start + 4;
      i := i + 1;
    }
    ChunkCountIs(layer, i);
  }

  /** The stacks drawn by a sequence of layers, read top layer first. */
  function CrateStacks(layers: seq<string>): Stacks
  {
    if layers == [] then [] else WithLayer(CrateStacks(layers[..|layers| - 1]), layers[|layers| - 1])
  }

  /** The crates of column `i`, from the top layer down. */
  function Column(layers: seq<string>, i: nat): seq<char>
  {
    if layers == [] then [] else Column(layers[..|layers| - 1], i) + Crate(layers[|layers| - 1], i)
  }

  /** The widest layer's number of chunks. */
  function Width(layers: seq<string>): nat
  {
    if layers == [] then 0 else Max(Width(layers[..|layers| - 1]), ChunkCount(layers[|layers| - 1]))
  }

  lemma CrateBeyond(layer: string, i: nat)
    requires ChunkCount(layer) <= i
    ensures Crate(layer, i) == []
  {
  }

  /** There is one stack per chunk of the widest layer, and stack `i` lists column `i` from
      top to bottom, so the front of every stack is its top crate. */
  lemma {:induction false} StacksAreColumns(layers: seq<string>)
    ensures |CrateStacks(layers)| == Width(layers)
    ensures forall i | 0 <= i < Width(layers) :: CrateStacks(layers)[i] == Column(layers, i)
    decreases |layers|
  {
    if layers != [] {
      var init, last := layers[..|layers| - 1], layers[|layers| - 1];
      StacksAreColumns(init);
      forall i | 0 <= i < Width(layers)
        ensures CrateStacks(layers)[i] == Column(layers, i)
      {
        if i >= Width(init) {
          ColumnBeyond(init, i);
        } else if i >= ChunkCount(last) {
          CrateBeyond(last, i);
        }
      }
    }
  }

  lemma {:induction false} ColumnBeyond(layers: seq<string>, i: nat)
    requires Width(layers) <= i
    ensures Column(layers, i) == []
    decreases |layers|
  {
    if layers != [] {
      ColumnBeyond(layers[..|layers| - 1], i);
      CrateBeyond(layers[|layers| - 1], i);
    }
  }

  /** A move "move count from from to to"; stacks are numbered from 1. */
  datatype Move = Move(count: nat, from: nat, to: nat)

  /** A move line: the text after the first five characters ("move "), split at " from " and
      " to "; `None` marks the slice and the `unwrap`s that panic. */
  function ParseMove(line: string): Option<Move>
  {
    if |line| < 5 then None
    else
      match SplitOnce(line[5..], " from ")
      case None => None
      case Some((countText, rest)) =>
        match SplitOnce(rest, " to ")
        case None => None
        case Some((fromText, toText)) =>
          match (ParseNat(countText), ParseNat(fromText), ParseNat(toText))
          case (Some(count), Some(from), Some(to)) => Some(Move(count, from, to))
          case _ => None
  }

  function RenderMove(m: Move): string
  {
    "move " + ShowNat(m.count) + " from " + ShowNat(m.from) + " to " + ShowNat(m.to)
  }

  /** Parsing undoes rendering. */
  lemma ParseRenderMove(m: Move)
    ensures ParseMove(RenderMove(m)) == Some(m)
  {
    var count, from, to := ShowNat(m.count), ShowNat(m.from), ShowNat(m.to);
    var rest := from + " to " + to;
    assert RenderMove(m)[5..] == count + " from " + rest;
    ShowNatLacks(m.count, ' ');
    SplitOnceAt(count, " from ", rest);
    ShowNatLacks(m.from, ' ');
    SplitOnceAt(from, " to ", to);
    ParseShowNat(m.count);
    ParseShowNat(m.from);
    ParseShowNat(m.to);
  }

  /** Which crane runs the moves: the CrateMover 9000 of part 1 or the 9001 of part 2. */
  datatype Mover = OneAtATime | Block

  /** When a move does not panic. One at a time, a move of no crates touches no stack; otherwise
      both numbers must name stacks and the source stack must hold a crate for every pop
      (with `from == to` every pop is followed by a push, so one crate is enough). As a block,
      `drain(..count)` needs `count` crates whatever the destination. */
  predicate Legal(stacks: Stacks, m: Move, mover: Mover)
  {
    match mover
    case OneAtATime =>
      m.count == 0
      || (1 <= m.from <= |stacks| && 1 <= m.to <= |stacks|
          && (if m.from == m.to then stacks[m.from - 1] != [] else m.count <= |stacks[m.from - 1]|))
    case Block =>
      1 <= m.from <= |stacks| && 1 <= m.to <= |stacks| && m.count <= |stacks[m.from - 1]|
  }

  /** The crates of `s` in the opposite order: the last one first. */
  function Reversed(s: seq<char>): (r: seq<char>)
    ensures |r| == |s|
  {
    if s == [] then [] else [s[|s| - 1]] + Reversed(s[..|s| - 1])
  }

  /** Position `i` of the reversal holds position `|s| - 1 - i` of the original. */
  lemma {:induction false} ReversedAt(s: seq<char>, i: nat)
    requires i < |s|
    ensures Reversed(s)[i] == s[|s| - 1 - i]
    decreases |s|
  {
    if i > 0 {
      ReversedAt(s[..|s| - 1], i - 1);
    }
  }

  /** The stacks after a legal move: the top `count` crates leave the source stack and land on the
      destination, reversed by a crane that lifts one crate at a time and in order by one that
      lifts the block. */
  function Moved(stacks: Stacks, m: Move, mover: Mover): (r: Stacks)
    requires Legal(stacks, m, mover)
    ensures |r| == |stacks|
  {
    if m.count == 0 || m.from == m.to then stacks
    else
      stacks[m.from - 1 := stacks[m.from - 1][m.count..]]
            [m.to - 1 := Lifted(stacks[m.from - 1][..m.count], mover) + stacks[m.to - 1]]
  }

  /** The block as it lands on the destination. */
  function Lifted(block: seq<char>, mover: Mover): (r: seq<char>)
    ensures |r| == |block|
  {
    if mover == OneAtATime then Reversed(block) else block
  }

  /** `Moved`'s definition, stated for a move of at least one crate between two different stacks,
      so that the lemmas below can use it without unfolding `Moved`. */
  lemma MovedTransfer(stacks: Stacks, m: Move, mover: Mover)
    requires Legal(stacks, m, mover) && m.count > 0 && m.from != m.to
    ensures Moved(stacks, m, mover)
            == stacks[m.from - 1 := stacks[m.from - 1][m.count..]]
                     [m.to - 1 := Lifted(stacks[m.from - 1][..m.count], mover) + stacks[m.to - 1]]
  {
  }

  /** A move of no crates, or from a stack onto itself, changes nothing. */
  lemma MovedNothing(stacks: Stacks, m: Move, mover: Mover)
    requires Legal(stacks, m, mover) && (m.count == 0 || m.from == m.to)
    ensures Moved(stacks, m, mover) == stacks
  {
  }

  /** A move touches no stack but its source and its destination. */
  lemma MovedElsewhere(stacks: Stacks, m: Move, mover: Mover, j: nat)
    requires Legal(stacks, m, mover) && j < |stacks| && j != m.from - 1 && j != m.to - 1
    ensures Moved(stacks, m, mover)[j] == stacks[j]
  {
  }

  /** The number of crates on all the stacks. */
  function Total(stacks: Stacks): nat
  {
    if stacks == [] then 0 else Total(stacks[..|stacks| - 1]) + |stacks[|stacks| - 1]|
  }

  lemma {:induction false} TotalUpdate(stacks: Stacks, j: nat, s: seq<char>)
    requires j < |stacks|
    ensures Total(stacks[j := s]) == Total(stacks) - |stacks[j]| + |s|
    decreases |stacks|
  {
    var n := |stacks| - 1;
    if j < n {
      TotalUpdate(stacks[..n], j, s);
      assert stacks[j := s][..n] == stacks[..n][j := s];
    } else {
      assert stacks[j := s][..n] == stacks[..n];
    }
  }

  /** Either crane keeps every crate: the total is unchanged. */
  lemma MovedConserves(stacks: Stacks, m: Move, mover: Mover)
    requires Legal(stacks, m, mover)
    ensures Total(Moved(stacks, m, mover)) == Total(stacks)
  {
    if m.count == 0 || m.from == m.to {
      MovedNothing(stacks, m, mover);
    } else {
      assert 1 <= m.from <= |stacks| && 1 <= m.to <= |stacks| && m.count <= |stacks[m.from - 1]|;
      var f, t := m.from - 1, m.to - 1;
      var block := Lifted(stacks[f][..m.count], mover);
      MovedTransfer(stacks, m, mover);
      TransferConserves(stacks, f, t, m.count, block);
    }
  }

  lemma TransferConserves(stacks: Stacks, f: nat, t: nat, count: nat, block: seq<char>)
    requires f < |stacks| && t < |stacks| && f != t && count <= |stacks[f]| && |block| == count
    ensures Total(stacks[f := stacks[f][count..]][t := block + stacks[t]]) == Total(stacks)
  {
    var lifted := stacks[f := stacks[f][count..]];
    TotalUpdate(stacks, f, stacks[f][count..]);
    TotalUpdate(lifted, t, block + stacks[t]);
  }

  /** The two cranes agree on a move of at most one crate, and otherwise leave the same crates
      on top of the destination, in opposite orders. */
  lemma MoversCompared(stacks: Stacks, m: Move)
    requires Legal(stacks, m, Block)
    ensures Legal(stacks, m, OneAtATime)
    ensures m.count <= 1 ==> Moved(stacks, m, OneAtATime) == Moved(stacks, m, Block)
    ensures m.from != m.to ==>
      Moved(stacks, m, OneAtATime)[m.to - 1][..m.count] == Reversed(Moved(stacks, m, Block)[m.to - 1][..m.count])
  {
    if m.count == 1 {
      assert Reversed(stacks[m.from - 1][..1]) == stacks[m.from - 1][..1];
    }
    if m.from != m.to && m.count != 0 {
      var block := stacks[m.from - 1][..m.count];
      assert (Reversed(block) + stacks[m.to - 1])[..m.count] == Reversed(block);
      assert (block + stacks[m.to - 1])[..m.count] == block;
    }
  }

  /** Part 1's loop: `count` times, pop the top of the source stack and push it onto the destination. */
  method MoveOneAtATime(stacks: Stacks, m: Move) returns (result: Stacks)
    requires Legal(stacks, m, OneAtATime)
    ensures result == Moved(stacks, m, OneAtATime)
  {
    result := stacks;
    ghost var source := if m.count > 0 then stacks[m.from - 1] else [];
    if m.count > 0 && m.from != m.to {
      Lifting(stacks, m.from - 1, m.to - 1);
    }
    for n := 0 to m.count
      invariant m.count == 0 || m.from == m.to ==> result == stacks
      invariant m.count > 0 && m.from != m.to ==> result == Partway(stacks, m.from - 1, m.to - 1, n)
    {
      ghost var before := result;
      var deal := result[m.from - 1][0];
      result := result[m.from - 1 := result[m.from - 1][1..]];
      result := result[m.to - 1 := [deal] + result[m.to - 1]];
      if m.from == m.to {
        PopPushSame(before, m.from - 1);
      } else {
        PopPushOther(stacks, m.from - 1, m.to - 1, n);
      }
    }
    if m.count == 0 || m.from == m.to {
      MovedNothing(stacks, m, OneAtATime);
    } else {
      MovedTransfer(stacks, m, OneAtATime);
    }
  }

  /** The stacks after `n` crates of the source stack `f` have been moved one at a time to `t`. */
  function Partway(stacks: Stacks, f: nat, t: nat, n: nat): Stacks
    requires f < |stacks| && t < |stacks| && n <= |stacks[f]|
  {
    stacks[f := stacks[f][n..]][t := Reversed(stacks[f][..n]) + stacks[t]]
  }

  lemma Lifting(stacks: Stacks, f: nat, t: nat)
    requires f < |stacks| && t < |stacks| && f != t
    ensures Partway(stacks, f, t, 0) == stacks
  {
    assert stacks[f][0..] == stacks[f] && Reversed(stacks[f][..0]) + stacks[t] == stacks[t];
  }

  /** Popping a stack's top and pushing it back changes nothing. */
  lemma PopPushSame(stacks: Stacks, f: nat)
    requires f < |stacks| && stacks[f] != []
    ensures stacks[f := stacks[f][1..]][f := [stacks[f][0]] + stacks[f][1..]] == stacks
  {
    assert [stacks[f][0]] + stacks[f][1..] == stacks[f];
  }

  /** One more crate popped from `f` and pushed onto `t`. */
  lemma PopPushOther(stacks: Stacks, f: nat, t: nat, n: nat)
    requires f < |stacks| && t < |stacks| && f != t && n < |stacks[f]|
    ensures var before := Partway(stacks, f, t, n);
            var popped := before[f := before[f][1..]];
            popped[t := [before[f][0]] + popped[t]] == Partway(stacks, f, t, n + 1)
  {
    var source := stacks[f];
    assert source[n..][1..] == source[n + 1..];
    assert source[..n + 1][..n] == source[..n];
    assert [source[n]] + (Reversed(source[..n]) + stacks[t]) == Reversed(source[..n + 1]) + stacks[t];
  }

  /** Part 2's move: drain the top `count` crates, put the destination stack under them, and
      store the result as the destination. */
  method MoveBlock(stacks: Stacks, m: Move) returns (result: Stacks)
    requires Legal(stacks, m, Block)
    ensures result == Moved(stacks, m, Block)
  {
    var deal := stacks[m.from - 1][..m.count];
    result := stacks[m.from - 1 := stacks[m.from - 1][m.count..]];
    deal := deal + result[m.to - 1];
    result := result[m.to - 1 := []];
    result := result[m.to - 1 := deal];
    var source := stacks[m.from - 1];
    if m.from == m.to {
      assert source[..m.count] + source[m.count..] == source;
      assert stacks[m.from - 1 := source] == stacks;
      MovedNothing(stacks, m, Block);
    } else if m.count == 0 {
      assert source[0..] == source && source[..0] + stacks[m.to - 1] == stacks[m.to - 1];
      assert stacks[m.from - 1 := source][m.to - 1 := stacks[m.to - 1]] == stacks;
      MovedNothing(stacks, m, Block);
    } else {
      MovedTransfer(stacks, m, Block);
    }
  }

  /** The stacks after the move lines, or `None` if a line panics. */
  function Rearranged(stacks: Stacks, moves: seq<string>, mover: Mover): Option<Stacks>
    decreases |moves|
  {
    if moves == [] then Some(stacks)
    else
      match ParseMove(moves[0])
      case None => None
      case Some(m) =>
        if Legal(stacks, m, mover) then Rearranged(Moved(stacks, m, mover), moves[1..], mover) else None
  }

  /** The front crate of every stack, or `None` if a stack is empty (`s[0]` panics). */
  function Tops(stacks: Stacks): Option<string>
  {
    if forall i | 0 <= i < |stacks| :: stacks[i] != [] then Some(seq(|stacks|, i requires 0 <= i < |stacks| => stacks[i][0]))
    else None
  }

  /** The layers: the lines `take_while` yields before the first blank line. */
  function Layers(lines: seq<string>): seq<string>
  {
    lines[..FirstBlank(lines)]
  }

  /** The move lines: what is left after `take_while` has also consumed the blank line. */
  function MoveLines(lines: seq<string>): seq<string>
  {
    lines[Min(FirstBlank(lines) + 1, |lines|)..]
  }

  /** What `part_1` or `part_2` returns for the lines of a file, or `None` where it panics. */
  function Outcome(lines: seq<string>, mover: Mover): Option<string>
  {
    var layers := Layers(lines);
    if forall i | 0 <= i < |layers| :: Readable(layers[i]) then
      match Rearranged(CrateStacks(layers), MoveLines(lines), mover)
      case None => None
      case Some(stacks) => Tops(stacks)
    else None
  }

  /** The `take_while` loop: every layer read into the stacks in turn. */
  method ReadCrates(layers: seq<string>) returns (stacks: Stacks)
    requires forall i | 0 <= i < |layers| :: Readable(layers[i])
    ensures stacks == CrateStacks(layers)
  {
    stacks := [];
    for k := 0 to |layers|
      invariant stacks == CrateStacks(layers[..k])
    {
      assert layers[..k + 1][..k] == layers[..k];
      stacks := ReadLayer(stacks, layers[k]);
    }
    assert layers[..|layers|] == layers;
  }

  /** The loop over the move lines, each parsed and carried out by the crane. */
  method RunMoves(stacks: Stacks, moves: seq<string>, mover: Mover) returns (result: Stacks)
    requires Rearranged(stacks, moves, mover).Some?
    ensures Some(result) == Rearranged(stacks, moves, mover)
  {
    result := stacks;
    for j := 0 to |moves|
      invariant Rearranged(result, moves[j..], mover) == Rearranged(stacks, moves, mover)
    {
      assert moves[j..][1..] == moves[j + 1..];
      var m := ParseMove(moves[j]).value;
      if mover == OneAtATime {
        result := MoveOneAtATime(result, m);
      } else {
        result := MoveBlock(result, m);
      }
    }
  }

  /** `part_1` and `part_2`: read the layers up to the blank line, then run every move line. */
  method Rearrange(lines: seq<string>, mover: Mover) returns (tops: string)
    requires Outcome(lines, mover).Some?
    ensures Some(tops) == Outcome(lines, mover)
  {
    OutcomeParts(lines, mover);
    var k := ScanLayers(lines);
    var layers := lines[..k];
    assert layers == Layers(lines);
    var stacks := ReadCrates(layers);
    var j := if k < |lines| then k + 1 else k;
    var moves := lines[j..];
    assert moves == MoveLines(lines);
    stacks := RunMoves(stacks, moves, mover);
    tops := Tops(stacks).value;
  }

  /** How far `take_while` reads: up to the first blank line. */
  method ScanLayers(lines: seq<string>) returns (k: nat)
    ensures k == FirstBlank(lines)
  {
    k := 0;
    while k < |lines| && lines[k] != ""
      invariant k <= |lines|
      invariant forall i | 0 <= i < k :: lines[i] != ""
    {
      k := k + 1;
    }
    BlankFound(lines, k);
  }

  /** What `Outcome` demands of the input, stage by stage. */
  lemma OutcomeParts(lines: seq<string>, mover: Mover)
    requires Outcome(lines, mover).Some?
    ensures forall i | 0 <= i < |Layers(lines)| :: Readable(Layers(lines)[i])
    ensures Rearranged(CrateStacks(Layers(lines)), MoveLines(lines), mover).Some?
    ensures Outcome(lines, mover) == Tops(Rearranged(CrateStacks(Layers(lines)), MoveLines(lines), mover).value)
  {
  }

  /** The scan for the blank line stops where `FirstBlank` is. */
  lemma BlankFound(lines: seq<string>, k: nat)
    requires k <= |lines| && (k < |lines| ==> lines[k] == "")
    requires forall i | 0 <= i < k :: lines[i] != ""
    ensures k == FirstBlank(lines)
  {
    FirstBlankIsFirst(lines);
  }

  method Part1(lines: seq<string>) returns (tops: string)
    requires Outcome(lines, OneAtATime).Some?
    ensures Some(tops) == Outcome(lines, OneAtATime)
  {
    tops := Rearrange(lines, OneAtATime);
  }

  method Part2(lines: seq<string>) returns (tops: string)
    requires Outcome(lines, Block).Some?
    ensures Some(tops) == Outcome(lines, Block)
  {
    tops := Rearrange(lines, Block);
  }

  /** The puzzle's published example: three stacks and four moves leave "CMZ" on top with the
      first crane ... */
  lemma ExampleOneAtATime()
    ensures Rearranged(["NZ", "DCM", "P"], ExampleMoveLines(), OneAtATime) == Some(["C", "M", "ZNDP"])
    ensures Tops(["C", "M", "ZNDP"]) == Some("CMZ")
  {
    TopsOfThree("C", "M", "ZNDP");
    OneAtATimeFirstSteps();
    OneAtATimeLastSteps();
    ExampleParsed();
    ExampleRun(ExampleMoveLines(), OneAtATime, Move(1, 2, 1), Move(3, 1, 3), Move(2, 2, 1), Move(1, 1, 2),
               ["NZ", "DCM", "P"], ["DNZ", "CM", "P"], ["", "CM", "ZNDP"], ["MC", "", "ZNDP"], ["C", "M", "ZNDP"]);
  }

  /** The example's first two moves, one crate at a time. */
  lemma OneAtATimeFirstSteps()
    ensures Legal(["NZ", "DCM", "P"], Move(1, 2, 1), OneAtATime)
    ensures Moved(["NZ", "DCM", "P"], Move(1, 2, 1), OneAtATime) == ["DNZ", "CM", "P"]
    ensures Legal(["DNZ", "CM", "P"], Move(3, 1, 3), OneAtATime)
    ensures Moved(["DNZ", "CM", "P"], Move(3, 1, 3), OneAtATime) == ["", "CM", "ZNDP"]
  {
    assert "DCM"[1..] == "CM" && "DCM"[..1] == "D" && Lifted("D", OneAtATime) == "D" && "D" + "NZ" == "DNZ";
    Step(["NZ", "DCM", "P"], Move(1, 2, 1), OneAtATime, ["DNZ", "CM", "P"]);
    assert "DNZ"[3..] == "" && "DNZ"[..3] == "DNZ" && Lifted("DNZ", OneAtATime) == "ZND" by {
      assert "DNZ"[..2] == "DN" && "DN"[..1] == "D";
    }
    assert "ZND" + "P" == "ZNDP";
    Step(["DNZ", "CM", "P"], Move(3, 1, 3), OneAtATime, ["", "CM", "ZNDP"]);
  }

  /** The example's last two moves, one crate at a time. */
  lemma OneAtATimeLastSteps()
    ensures Legal(["", "CM", "ZNDP"], Move(2, 2, 1), OneAtATime)
    ensures Moved(["", "CM", "ZNDP"], Move(2, 2, 1), OneAtATime) == ["MC", "", "ZNDP"]
    ensures Legal(["MC", "", "ZNDP"], Move(1, 1, 2), OneAtATime)
    ensures Moved(["MC", "", "ZNDP"], Move(1, 1, 2), OneAtATime) == ["C", "M", "ZNDP"]
  {
    assert "CM"[2..] == "" && "CM"[..2] == "CM" && Lifted("CM", OneAtATime) == "MC" by { assert "CM"[..1] == "C"; }
    assert "MC" + "" == "MC";
    Step(["", "CM", "ZNDP"], Move(2, 2, 1), OneAtATime, ["MC", "", "ZNDP"]);
    assert "MC"[1..] == "C" && "MC"[..1] == "M" && Lifted("M", OneAtATime) == "M" && "M" + "" == "M";
    Step(["MC", "", "ZNDP"], Move(1, 1, 2), OneAtATime, ["C", "M", "ZNDP"]);
  }

  /** ... and "MCD" with the second. */
  lemma ExampleBlock()
    ensures Rearranged(["NZ", "DCM", "P"], ExampleMoveLines(), Block) == Some(["M", "C", "DNZP"])
    ensures Tops(["M", "C", "DNZP"]) == Some("MCD")
  {
    TopsOfThree("M", "C", "DNZP");
    BlockFirstSteps();
    BlockLastSteps();
    ExampleParsed();
    ExampleRun(ExampleMoveLines(), Block, Move(1, 2, 1), Move(3, 1, 3), Move(2, 2, 1), Move(1, 1, 2),
               ["NZ", "DCM", "P"], ["DNZ", "CM", "P"], ["", "CM", "DNZP"], ["CM", "", "DNZP"], ["M", "C", "DNZP"]);
  }

  /** The example's first two moves as blocks. */
  lemma BlockFirstSteps()
    ensures Legal(["NZ", "DCM", "P"], Move(1, 2, 1), Block)
    ensures Moved(["NZ", "DCM", "P"], Move(1, 2, 1), Block) == ["DNZ", "CM", "P"]
    ensures Legal(["DNZ", "CM", "P"], Move(3, 1, 3), Block)
    ensures Moved(["DNZ", "CM", "P"], Move(3, 1, 3), Block) == ["", "CM", "DNZP"]
  {
    assert "DCM"[1..] == "CM" && "DCM"[..1] == "D" && "D" + "NZ" == "DNZ";
    Step(["NZ", "DCM", "P"], Move(1, 2, 1), Block, ["DNZ", "CM", "P"]);
    assert "DNZ"[3..] == "" && "DNZ"[..3] == "DNZ" && "DNZ" + "P" == "DNZP";
    Step(["DNZ", "CM", "P"], Move(3, 1, 3), Block, ["", "CM", "DNZP"]);
  }

  /** The example's last two moves as blocks. */
  lemma BlockLastSteps()
    ensures Legal(["", "CM", "DNZP"], Move(2, 2, 1), Block)
    ensures Moved(["", "CM", "DNZP"], Move(2, 2, 1), Block) == ["CM", "", "DNZP"]
    ensures Legal(["CM", "", "DNZP"], Move(1, 1, 2), Block)
    ensures Moved(["CM", "", "DNZP"], Move(1, 1, 2), Block) == ["M", "C", "DNZP"]
  {
    assert "CM"[2..] == "" && "CM"[..2] == "CM" && "CM" + "" == "CM";
    Step(["", "CM", "DNZP"], Move(2, 2, 1), Block, ["CM", "", "DNZP"]);
    assert "CM"[1..] == "M" && "CM"[..1] == "C" && "C" + "" == "C";
    Step(["CM", "", "DNZP"], Move(1, 1, 2), Block, ["M", "C", "DNZP"]);
  }

  /** The tops of three nonempty stacks. */
  lemma TopsOfThree(a: string, b: string, c: string)
    requires a != [] && b != [] && c != []
    ensures Tops([a, b, c]) == Some([a[0], b[0], c[0]])
  {
    var t := Tops([a, b, c]);
    assert t.Some? by {
      forall i | 0 <= i < 3 ensures [a, b, c][i] != [] { }
    }
    assert |t.value| == 3 && t.value[0] == a[0] && t.value[1] == b[0] && t.value[2] == c[0];
    assert t.value == [a[0], b[0], c[0]];
  }

  /** The example's move lines. */
  function ExampleMoveLines(): seq<string>
  {
    [RenderMove(Move(1, 2, 1)), RenderMove(Move(3, 1, 3)), RenderMove(Move(2, 2, 1)), RenderMove(Move(1, 1, 2))]
  }

  /** The example's move lines read back as its moves. */
  lemma ExampleParsed()
    ensures |ExampleMoveLines()| == 4
    ensures ParseMove(ExampleMoveLines()[0]) == Some(Move(1, 2, 1))
    ensures ParseMove(ExampleMoveLines()[1]) == Some(Move(3, 1, 3))
    ensures ParseMove(ExampleMoveLines()[2]) == Some(Move(2, 2, 1))
    ensures ParseMove(ExampleMoveLines()[3]) == Some(Move(1, 1, 2))
  {
    var lines := ExampleMoveLines();
    ParsedLine(lines[0], Move(1, 2, 1));
    ParsedLine(lines[1], Move(3, 1, 3));
    ParsedLine(lines[2], Move(2, 2, 1));
    ParsedLine(lines[3], Move(1, 1, 2));
  }

  lemma ParsedLine(line: string, m: Move)
    requires line == RenderMove(m)
    ensures ParseMove(line) == Some(m)
  {
    ParseRenderMove(m);
  }

  /** A single legal move between two of three stacks, described stack by stack. */
  lemma Step(before: Stacks, m: Move, mover: Mover, after: Stacks)
    requires |before| == |after| == 3
    requires m.count > 0 && m.from != m.to && 1 <= m.from <= 3 && 1 <= m.to <= 3
    requires m.count <= |before[m.from - 1]|
    requires after[m.from - 1] == before[m.from - 1][m.count..]
    requires after[m.to - 1] == Lifted(before[m.from - 1][..m.count], mover) + before[m.to - 1]
    requires after[6 - m.from - m.to - 1] == before[6 - m.from - m.to - 1]
    ensures Legal(before, m, mover) && Moved(before, m, mover) == after
  {
    assert Legal(before, m, mover);
    MovedTransfer(before, m, mover);
    var u := Moved(before, m, mover);
    assert u[0] == after[0] && u[1] == after[1] && u[2] == after[2];
  }

  /** Four legal moves, read from four lines, carried out in order. */
  lemma ExampleRun(lines: seq<string>, mover: Mover, m0: Move, m1: Move, m2: Move, m3: Move,
                   s0: Stacks, s1: Stacks, s2: Stacks, s3: Stacks, s4: Stacks)
    requires |lines| == 4
    requires ParseMove(lines[0]) == Some(m0) && Legal(s0, m0, mover) && Moved(s0, m0, mover) == s1
    requires ParseMove(lines[1]) == Some(m1) && Legal(s1, m1, mover) && Moved(s1, m1, mover) == s2
    requires ParseMove(lines[2]) == Some(m2) && Legal(s2, m2, mover) && Moved(s2, m2, mover) == s3
    requires ParseMove(lines[3]) == Some(m3) && Legal(s3, m3, mover) && Moved(s3, m3, mover) == s4
    ensures Rearranged(s0, lines, mover) == Some(s4)
  {
    TwoSteps(s0, lines, mover, m0, m1, s1, s2);
    TwoSteps(s2, lines[2..], mover, m2, m3, s3, s4);
    assert lines[2..][2..] == [];
  }

  /** Two legal move lines at the front of the list are carried out first. */
  lemma TwoSteps(stacks: Stacks, lines: seq<string>, mover: Mover, m0: Move, m1: Move, s1: Stacks, s2: Stacks)
    requires |lines| >= 2
    requires ParseMove(lines[0]) == Some(m0) && Legal(stacks, m0, mover) && Moved(stacks, m0, mover) == s1
    requires ParseMove(lines[1]) == Some(m1) && Legal(s1, m1, mover) && Moved(s1, m1, mover) == s2
    ensures Rearranged(stacks, lines, mover) == Rearranged(s2, lines[2..], mover)
  {
    RearrangedStep(stacks, lines, mover, m0, s1);
    RearrangedStep(s1, lines[1..], mover, m1, s2);
    assert lines[1..][1..] == lines[2..];
  }

  /** A legal move line at the front of the list is carried out first. */
  lemma RearrangedStep(stacks: Stacks, lines: seq<string>, mover: Mover, m: Move, after: Stacks)
    requires lines != [] && ParseMove(lines[0]) == Some(m) && Legal(stacks, m, mover) && Moved(stacks, m, mover) == after
    ensures Rearranged(stacks, lines, mover) == Rearranged(after, lines[1..], mover)
  {
  }
}
