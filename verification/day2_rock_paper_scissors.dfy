/** Day 2: scoring a rock-paper-scissors strategy guide. Each line holds the
    opponent's symbol and a second symbol, which is either our move or, in the
    second reading, the outcome we are asked to reach. */
module RockPaperScissors {
  import opened Wrappers
  import opened Text
  import opened Seqs
  import opened LinePipeline

  datatype Symbol = Rock | Paper | Scissors

  /** Upper-casing as far as it matters here: only the ASCII letters a, b, c,
      x, y and z upper-case to the six accepted aliases. */
  function ToUpper(c: char): char {
    if 'a' <= c <= 'z' then (c as int - 32) as char else c
  }

  /** `Symbol::from_str`: A or X is Rock, B or Y is Paper, C or Z is Scissors,
      in either case; any other string is rejected. */
  function FromStr(s: string): Option<Symbol> {
    if |s| != 1 then None
    else
      match ToUpper(s[0])
      case 'A' => Some(Rock)
      case 'X' => Some(Rock)
      case 'B' => Some(Paper)
      case 'Y' => Some(Paper)
      case 'C' => Some(Scissors)
      case 'Z' => Some(Scissors)
      case _ => None
  }

  /** The aliases, exhaustively and in both directions. */
  lemma FromStrAliases(s: string)
    ensures FromStr(s) == Some(Rock) <==> s in {"A", "a", "X", "x"}
    ensures FromStr(s) == Some(Paper) <==> s in {"B", "b", "Y", "y"}
    ensures FromStr(s) == Some(Scissors) <==> s in {"C", "c", "Z", "z"}
    ensures FromStr(s).None? <==> s !in {"A", "a", "X", "x", "B", "b", "Y", "y", "C", "c", "Z", "z"}
  {
    if |s| == 1 {
      assert s == [s[0]];
    }
  }

  /** The symbol that `a` beats. */
  function WinsAgainst(a: Symbol): Symbol {
    match a
    case Rock => Scissors
    case Paper => Rock
    case Scissors => Paper
  }

  /** The symbol that beats `a` (`looses_against` in the source). */
  function LosesAgainst(a: Symbol): Symbol {
    match a
    case Rock => Paper
    case Paper => Scissors
    case Scissors => Rock
  }

  /** The two relations are inverse permutations without a fixed point, so a
      symbol, the one it beats and the one that beats it are all different. */
  lemma WinsLosesInverse(a: Symbol)
    ensures LosesAgainst(WinsAgainst(a)) == a && WinsAgainst(LosesAgainst(a)) == a
    ensures WinsAgainst(a) != a && LosesAgainst(a) != a
    ensures WinsAgainst(a) != LosesAgainst(a)
  {
  }

  /** `get_value`: what playing a symbol is worth. */
  function Value(s: Symbol): (v: int)
    ensures 1 <= v <= 3
  {
    match s
    case Rock => 1
    case Paper => 2
    case Scissors => 3
  }

  /** `calculate_reward`: 3 for a draw, 6 when our move `b` is the one that
      beats the opponent's `a`, 0 otherwise. */
  function Reward(a: Symbol, b: Symbol): (r: int)
    ensures r == 0 || r == 3 || r == 6
  {
    if a == b then 3 else if LosesAgainst(a) == b then 6 else 0
  }

  /** The reward agrees with `WinsAgainst`: we win exactly when our move beats
      the opponent's, and lose exactly when the opponent's beats ours. */
  lemma RewardMatchesWins(a: Symbol, b: Symbol)
    ensures Reward(a, b) == 6 <==> WinsAgainst(b) == a
    ensures Reward(a, b) == 0 <==> WinsAgainst(a) == b
    ensures Reward(a, b) == 3 <==> a == b
  {
  }

  /** `calculate_score`: the reward plus the value of our move. */
  function Score(a: Symbol, b: Symbol): (r: int)
    ensures 1 <= r <= 9
  {
    Reward(a, b) + Value(b)
  }

  /** The nine-entry score table. */
  lemma ScoreTable()
    ensures Score(Rock, Rock) == 4 && Score(Rock, Paper) == 8 && Score(Rock, Scissors) == 3
    ensures Score(Paper, Rock) == 1 && Score(Paper, Paper) == 5 && Score(Paper, Scissors) == 9
    ensures Score(Scissors, Rock) == 7 && Score(Scissors, Paper) == 2 && Score(Scissors, Scissors) == 6
  {
  }

  /** The reward that the second column asks for in the second reading:
      X (Rock) means lose, Y (Paper) draw, Z (Scissors) win. */
  function DemandedReward(b: Symbol): int {
    match b
    case Rock => 0
    case Paper => 3
    case Scissors => 6
  }

  /** `map_symbol_for_outcome`: the move to play against `a` to reach the
      outcome that `b` stands for. */
  function MapSymbolForOutcome(a: Symbol, b: Symbol): Symbol {
    match b
    case Rock => WinsAgainst(a)
    case Paper => a
    case Scissors => LosesAgainst(a)
  }

  /** The chosen move reaches the demanded outcome, and it is the only move
      that does. */
  lemma MapSymbolForOutcomeCorrect(a: Symbol, b: Symbol, m: Symbol)
    ensures Reward(a, MapSymbolForOutcome(a, b)) == DemandedReward(b)
    ensures Reward(a, m) == DemandedReward(b) <==> m == MapSymbolForOutcome(a, b)
  {
  }

  /** One round of the strategy guide: every space-separated token must be a
      symbol (`map(map_aliases).collect()` panics otherwise), and the round is
      the first two; a line with fewer than two fails on `split[1]`. */
  function ParseRound(line: string): Option<(Symbol, Symbol)> {
    match MapAll(Split(line, ' '), FromStr)
    case None => None
    case Some(symbols) => if |symbols| < 2 then None else Some((symbols[0], symbols[1]))
  }

  /** The score of one line: in the first reading the second symbol is our
      move, in the second it is the outcome to reach. */
  function RoundScore(line: string, byOutcome: bool): (r: Option<int>)
    ensures r.Some? ==> 1 <= r.value <= 9
  {
    match ParseRound(line)
    case None => None
    case Some((a, b)) =>
      Some(if byOutcome then Score(a, MapSymbolForOutcome(a, b)) else Score(a, b))
  }

  /** The score of a line under one of the two readings. */
  function Scorer(byOutcome: bool): string -> Option<int> {
    line => RoundScore(line, byOutcome)
  }

  /** The total score of a strategy guide: the sum of its per-line scores;
      any bad line fails the lot. */
  function TotalScore(input: string, byOutcome: bool): Option<int> {
    SumAll(Lines(input), Scorer(byOutcome))
  }

  /** Every line scores between 1 and 9, so the total lies between the number
      of lines and nine times that. */
  lemma {:induction false} TotalScoreBounds(input: string, byOutcome: bool)
    requires TotalScore(input, byOutcome).Some?
    ensures |Lines(input)| <= TotalScore(input, byOutcome).value <= 9 * |Lines(input)|
  {
    var scores := MapAll(Lines(input), Scorer(byOutcome)).value;
    SumBounds(scores, 1, 9);
  }

  /** A text without lines scores 0. */
  lemma TotalScoreEmpty(byOutcome: bool)
    ensures TotalScore("", byOutcome) == Some(0)
  {
    LinesEmpty();
  }

  /** The total goes line by line: a first line adds its score to the total
      of the rest, failing when either fails. */
  lemma TotalScoreCons(first: string, rest: string, byOutcome: bool)
    requires '\n' !in first
    ensures TotalScore(first + "\n" + rest, byOutcome) ==
      var (v, sum) := (RoundScore(StripCarriageReturn(first), byOutcome), TotalScore(rest, byOutcome));
      if v.Some? && sum.Some? then Some(v.value + sum.value) else None
  {
    var f := Scorer(byOutcome);
    SumOfLinesCons(first, rest, f);
    assert f(StripCarriageReturn(first)) == RoundScore(StripCarriageReturn(first), byOutcome);
  }


}
