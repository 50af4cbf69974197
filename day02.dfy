/** Day 2: a rock-paper-scissors tournament. Each line "X Y" names the opponent's move
    and an encrypted instruction; two decryptors read the instruction, and every round
    scores the move's points plus the outcome's points. */
module Day02 {
  import opened Util

  datatype Move = Rock | Paper | Scissors

  predicate IsTheirCode(a: char) { a == 'A' || a == 'B' || a == 'C' }

  predicate IsMyCode(a: char) { a == 'X' || a == 'Y' || a == 'Z' }

  /** A move's position in the cycle Rock, Paper, Scissors. */
  function Ordinal(m: Move): int
  {
    match m
    case Rock => 0
    case Paper => 1
    case Scissors => 2
  }

  /** The reference rule: each move beats the one before it in the cycle. */
  predicate Beats(a: Move, b: Move)
  {
    (Ordinal(a) - Ordinal(b)) % 3 == 1
  }

  /** `decrypt_their_move`: A, B and C are Rock, Paper and Scissors; any other character is an error. */
  function DecryptTheirMove(a: char): (r: Result<Move>)
    ensures r.Ok? <==> IsTheirCode(a)
    ensures r.Ok? ==> Ordinal(r.value) == (a as int) - ('A' as int)
  {
    match a
    case 'A' => Ok(Rock)
    case 'B' => Ok(Paper)
    case 'C' => Ok(Scissors)
    case _ => Err("Invalid opponent move")
  }

  /** `decrypt_my_move`: X, Y and Z are Rock, Paper and Scissors, whatever the opponent plays. */
  function DecryptMyMove(a: char, them: Move): (r: Result<Move>)
    ensures r.Ok? <==> IsMyCode(a)
    ensures r.Ok? ==> Ordinal(r.value) == (a as int) - ('X' as int)
  {
    match a
    case 'X' => Ok(Rock)
    case 'Y' => Ok(Paper)
    case 'Z' => Ok(Scissors)
    case _ => Err("Invalid player move")
  }

  /** `decrypt_my_move_differently`: X asks for a loss, Y for a draw and Z for a win. */
  function DecryptMyMoveDifferently(a: char, them: Move): (r: Result<Move>)
    ensures r.Ok? <==> IsMyCode(a)
    ensures a == 'X' ==> r.Ok? && Beats(them, r.value)
    ensures a == 'Y' ==> r == Ok(them)
    ensures a == 'Z' ==> r.Ok? && Beats(r.value, them)
  {
    match a
    case 'X' => (match them
      case Rock => Ok(Scissors)
      case Paper => Ok(Rock)
      case Scissors => Ok(Paper))
    case 'Y' => Ok(them)
    case 'Z' => (match them
      case Rock => Ok(Paper)
      case Paper => Ok(Scissors)
      case Scissors => Ok(Rock))
    case _ => Err("Invalid player move")
  }

  /** The decryptor function the tournament is run with. */
  datatype Decryptor = Plain | Differently

  function Decrypt(d: Decryptor, a: char, them: Move): Result<Move>
  {
    match d
    case Plain => DecryptMyMove(a, them)
    case Differently => DecryptMyMoveDifferently(a, them)
  }

  datatype Round = Round(me: Move, them: Move)

  function MovePoints(m: Move): nat
  {
    match m
    case Rock => 1
    case Paper => 2
    case Scissors => 3
  }

  function WinPoints(me: Move, them: Move): nat
  {
    match (me, them)
    case (Rock, Paper) => 0
    case (Paper, Scissors) => 0
    case (Scissors, Rock) => 0
    case (Rock, Rock) => 3
    case (Paper, Paper) => 3
    case (Scissors, Scissors) => 3
    case (Rock, Scissors) => 6
    case (Paper, Rock) => 6
    case (Scissors, Paper) => 6
  }

  /** `score_round`: 1, 2 or 3 for the move played, plus 0 for a loss, 3 for a draw and 6 for a win. */
  function ScoreRound(round: Round): (s: nat)
    ensures s == Ordinal(round.me) + 1 + WinPoints(round.me, round.them)
    ensures 1 <= s <= 9
  {
    MovePoints(round.me) + WinPoints(round.me, round.them)
  }

  /** The outcome table agrees with the reference rule. */
  lemma OutcomeTable(me: Move, them: Move)
    ensures WinPoints(me, them) == 6 <==> Beats(me, them)
    ensures WinPoints(me, them) == 0 <==> Beats(them, me)
    ensures WinPoints(me, them) == 3 <==> me == them
    ensures WinPoints(me, them) in {0, 3, 6}
  {
  }

  /** The table is antisymmetric: a win one way is a loss the other way. */
  lemma OutcomeAntisymmetric(a: Move, b: Move)
    ensures WinPoints(a, b) + WinPoints(b, a) == 6
  {
    OutcomeTable(a, b);
    OutcomeTable(b, a);
  }

  /** With the second decryptor, X, Y and Z score 0, 3 and 6 outcome points against any move. */
  lemma DifferentlyOutcome(a: char, them: Move)
    requires IsMyCode(a)
    ensures var me := DecryptMyMoveDifferently(a, them).value;
            WinPoints(me, them) == 3 * ((a as int) - ('X' as int))
  {
    var me := DecryptMyMoveDifferently(a, them).value;
    OutcomeTable(me, them);
  }

  lemma ScoreExamples()
    ensures ScoreRound(Round(Rock, Paper)) == 1
    ensures ScoreRound(Round(Paper, Paper)) == 5
    ensures ScoreRound(Round(Scissors, Paper)) == 9
  {
  }

  /** A line of exactly three characters read as a round: the opponent's move, a space, and the
      instruction. `None` marks the three ways the source panics (two `unwrap`s and an `assert`). */
  function ParseRound(line: string, d: Decryptor): (r: Option<Round>)
    requires |line| == 3
    ensures r.Some? <==> IsTheirCode(line[0]) && line[1] == ' ' && IsMyCode(line[2])
    ensures r.Some? ==> Ok(r.value.them) == DecryptTheirMove(line[0]) && Ok(r.value.me) == Decrypt(d, line[2], r.value.them)
  {
    match DecryptTheirMove(line[0])
    case Err(_) => None
    case Ok(them) =>
      if line[1] != ' ' then None
      else
        match Decrypt(d, line[2], them)
        case Err(_) => None
        case Ok(me) => Some(Round(me, them))
  }

  /** Every line that `next` reaches before stopping is a valid round. */
  predicate Playable(lines: seq<string>, d: Decryptor)
    decreases |lines|
  {
    lines == [] || |lines[0]| != 3 || (ParseRound(lines[0], d).Some? && Playable(lines[1..], d))
  }

  /** The rounds the iterator yields: one per line, up to the first line that is not three
      characters long. */
  function Rounds(lines: seq<string>, d: Decryptor): (rounds: seq<Round>)
    requires Playable(lines, d)
    ensures |rounds| <= |lines|
    decreases |lines|
  {
    if lines == [] || |lines[0]| != 3 then [] else [ParseRound(lines[0], d).value] + Rounds(lines[1..], d)
  }

  /** Round `i` is line `i` parsed, and the line after the last round, if any, is not three characters long. */
  lemma {:induction false} RoundsParsed(lines: seq<string>, d: Decryptor)
    requires Playable(lines, d)
    ensures forall i | 0 <= i < |Rounds(lines, d)| :: |lines[i]| == 3 && ParseRound(lines[i], d) == Some(Rounds(lines, d)[i])
    ensures |Rounds(lines, d)| < |lines| ==> |lines[|Rounds(lines, d)|]| != 3
    decreases |lines|
  {
    if lines != [] && |lines[0]| == 3 {
      RoundsParsed(lines[1..], d);
    }
  }

  /** The iterator over the lines still to be read. */
  class TournamentInput {
    var lines: seq<string>
    const decryptor: Decryptor

    constructor (lines: seq<string>, decryptor: Decryptor)
      ensures this.lines == lines && this.decryptor == decryptor
    {
      this.lines := lines;
      this.decryptor := decryptor;
    }

    /** `next`: read one line; a line that is not three characters long ends the tournament. */
    method Next() returns (r: Option<Round>)
      requires Playable(lines, decryptor)
      modifies this
      ensures lines == if old(lines) == [] then [] else old(lines)[1..]
      ensures r == if old(lines) == [] || |old(lines)[0]| != 3 then None else ParseRound(old(lines)[0], decryptor)
      ensures r.Some? ==> Playable(lines, decryptor) && Rounds(old(lines), decryptor) == [r.value] + Rounds(lines, decryptor)
      ensures r.None? ==> Rounds(old(lines), decryptor) == []
    {
      if lines == [] {
        return None;
      }
      var roundString := lines[0];
      lines := lines[1..];
      if |roundString| != 3 {
        return None;
      }
      var them := DecryptTheirMove(roundString[0]).value;
      var me := Decrypt(decryptor, roundString[2], them).value;
      return Some(Round(me, them));
    }
  }

  /** The total of the round scores, folded from the left. */
  function TotalScore(rounds: seq<Round>): nat
  {
    if rounds == [] then 0 else TotalScore(rounds[..|rounds| - 1]) + ScoreRound(rounds[|rounds| - 1])
  }

  lemma {:induction false} TotalScoreAppend(rounds: seq<Round>, last: Round)
    ensures TotalScore(rounds + [last]) == TotalScore(rounds) + ScoreRound(last)
  {
    assert (rounds + [last])[..|rounds|] == rounds;
  }

  /** Every round scores between 1 and 9, so the total lies between the number of rounds and nine times it. */
  lemma {:induction false} TotalScoreBounds(rounds: seq<Round>)
    ensures |rounds| <= TotalScore(rounds) <= 9 * |rounds|
    decreases |rounds|
  {
    if rounds != [] {
      TotalScoreBounds(rounds[..|rounds| - 1]);
    }
  }

  lemma PlayedAll(all: seq<Round>, played: seq<Round>, rest: seq<Round>)
    requires all == played + rest && rest == []
    ensures all == played
  {
  }

  lemma PlayedOne(all: seq<Round>, played: seq<Round>, r: Round, rest: seq<Round>, later: seq<Round>)
    requires all == played + rest && rest == [r] + later
    ensures all == (played + [r]) + later
  {
  }

  /** `process_tournament`: the sum of the scores of the rounds the iterator yields. */
  method ProcessTournament(lines: seq<string>, decryptor: Decryptor) returns (totalScore: nat)
    requires Playable(lines, decryptor)
    ensures totalScore == TotalScore(Rounds(lines, decryptor))
  {
    var tournament := new TournamentInput(lines, decryptor);
    totalScore := 0;
    ghost var played: seq<Round> := [];
    while true
      invariant tournament.decryptor == decryptor
      invariant Playable(tournament.lines, decryptor)
      invariant Rounds(lines, decryptor) == played + Rounds(tournament.lines, decryptor)
      invariant totalScore == TotalScore(played)
      decreases |tournament.lines|
    {
      ghost var before := tournament.lines;
      var round := tournament.Next();
      if round.None? {
        PlayedAll(Rounds(lines, decryptor), played, Rounds(before, decryptor));
        break;
      }
      PlayedOne(Rounds(lines, decryptor), played, round.value, Rounds(before, decryptor), Rounds(tournament.lines, decryptor));
      TotalScoreAppend(played, round.value);
      totalScore := totalScore + ScoreRound(round.value);
      played := played + [round.value];
    }
  }

  /** `part_1`: every instruction names my move. */
  method Part1(lines: seq<string>) returns (score: nat)
    requires Playable(lines, Plain)
    ensures score == TotalScore(Rounds(lines, Plain))
  {
    score := ProcessTournament(lines, Plain);
  }

  /** `part_2`: every instruction names the outcome. */
  method Part2(lines: seq<string>) returns (score: nat)
    requires Playable(lines, Differently)
    ensures score == TotalScore(Rounds(lines, Differently))
  {
    score := ProcessTournament(lines, Differently);
  }

  /** The puzzle's example strategy guide scores 15 read plainly and 12 read the second way. */
  lemma ExampleTournament()
    ensures Playable(["A Y", "B X", "C Z"], Plain) && TotalScore(Rounds(["A Y", "B X", "C Z"], Plain)) == 15
    ensures Playable(["A Y", "B X", "C Z"], Differently) && TotalScore(Rounds(["A Y", "B X", "C Z"], Differently)) == 12
  {
    var lines := ["A Y", "B X", "C Z"];
    assert lines[1..] == ["B X", "C Z"] && lines[1..][1..] == ["C Z"] && lines[1..][1..][1..] == [];
    var plain := [Round(Paper, Rock), Round(Rock, Paper), Round(Scissors, Scissors)];
    var differently := [Round(Rock, Rock), Round(Rock, Paper), Round(Rock, Scissors)];
    assert Rounds(lines, Plain) == plain;
    assert Rounds(lines, Differently) == differently;
    ScoreThree(plain);
    ScoreThree(differently);
  }

  lemma ScoreThree(rounds: seq<Round>)
    requires |rounds| == 3
    ensures TotalScore(rounds) == ScoreRound(rounds[0]) + ScoreRound(rounds[1]) + ScoreRound(rounds[2])
  {
    assert rounds == [rounds[0]] + [rounds[1]] + [rounds[2]];
    TotalScoreAppend([], rounds[0]);
    TotalScoreAppend([rounds[0]], rounds[1]);
    TotalScoreAppend([rounds[0]] + [rounds[1]], rounds[2]);
  }
}
