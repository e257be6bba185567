/** Day 2, "Rock Paper Scissors": a strategy guide lists, per round, the
    opponent's shape and the outcome the player must reach. The player picks
    the shape that reaches it; a round scores the shape's value plus the
    outcome's value. */
module RockPaperScissors {
  import opened Wrappers
  import opened MapSums

  datatype Shape = Rock | Paper | Scissors

  datatype RoundOutcome = PlayerWon | OpponentWon | Tie

  /** A round of the strategy guide: the opponent's shape and the target outcome. */
  type Strategy = (Shape, RoundOutcome)

  /** Positions on the cycle Rock -> Paper -> Scissors -> Rock, where each
      shape beats the one before it. */
  function ShapeIndex(s: Shape): nat {
    match s
    case Rock => 0
    case Paper => 1
    case Scissors => 2
  }

  function ShapeAt(i: nat): (s: Shape)
    requires i < 3
    ensures ShapeIndex(s) == i
  {
    if i == 0 then Rock else if i == 1 then Paper else Scissors
  }

  /** `determine_round_winner` on (opponent, player). Equal shapes tie; the
      player wins exactly when their shape is one step after the opponent's on
      the cycle, and loses exactly when it is one step before. */
  function RoundWinner(opponent: Shape, player: Shape): (r: RoundOutcome)
    ensures r == Tie <==> opponent == player
    ensures r == PlayerWon <==> (ShapeIndex(player) - ShapeIndex(opponent)) % 3 == 1
    ensures r == OpponentWon <==> (ShapeIndex(opponent) - ShapeIndex(player)) % 3 == 1
  {
    match (opponent, player)
    case (Rock, Paper) => PlayerWon
    case (Rock, Scissors) => OpponentWon
    case (Paper, Rock) => OpponentWon
    case (Paper, Scissors) => PlayerWon
    case (Scissors, Rock) => PlayerWon
    case (Scissors, Paper) => OpponentWon
    case _ => Tie
  }

  function Opposite(o: RoundOutcome): RoundOutcome {
    match o
    case PlayerWon => OpponentWon
    case OpponentWon => PlayerWon
    case Tie => Tie
  }

  /** Swapping the two sides swaps who won. */
  lemma RoundWinnerSwap(a: Shape, b: Shape)
    ensures RoundWinner(b, a) == Opposite(RoundWinner(a, b))
  {
  }

  /** How many steps along the cycle the player's shape must be from the
      opponent's to reach an outcome. */
  function OutcomeOffset(o: RoundOutcome): nat {
    match o
    case Tie => 0
    case PlayerWon => 1
    case OpponentWon => 2
  }

  /** The shape that reaches `target` against `opponent`, computed on the cycle. */
  function ShapeFor(opponent: Shape, target: RoundOutcome): Shape {
    ShapeAt((ShapeIndex(opponent) + OutcomeOffset(target)) % 3)
  }

  /** Against any shape, every outcome is reached by exactly one player shape. */
  lemma UniqueShapeFor(opponent: Shape, target: RoundOutcome, player: Shape)
    ensures RoundWinner(opponent, player) == target <==> player == ShapeFor(opponent, target)
  {
    var i, j := ShapeIndex(opponent), ShapeIndex(player);
    assert ShapeIndex(ShapeFor(opponent, target)) == (i + OutcomeOffset(target)) % 3;
  }

  /** `choose_player_shape`: tries Paper, Rock, Scissors in that order and
      returns the first that reaches the target; one always does, so the
      program's panic after the loop cannot happen. */
  method ChoosePlayerShape(opponent: Shape, target: RoundOutcome) returns (player: Shape)
    ensures RoundWinner(opponent, player) == target
    ensures player == ShapeFor(opponent, target)
  {
    var order := [Paper, Rock, Scissors];
    for i := 0 to |order|
      invariant ShapeFor(opponent, target) in order[i..]
    {
      UniqueShapeFor(opponent, target, order[i]);
      if RoundWinner(opponent, order[i]) == target {
        return order[i];
      }
      assert order[i..] == [order[i]] + order[i + 1..];
    }
    assert false;
  }

  /** `get_outcome_value`: a loss is worth 0, a tie 3 and a win 6. */
  function OutcomeValue(o: RoundOutcome): (v: nat)
    ensures v % 3 == 0 && v <= 6
    ensures v == 3 <==> o == Tie
    ensures v > 3 <==> o == PlayerWon
  {
    match o
    case OpponentWon => 0
    case Tie => 3
    case PlayerWon => 6
  }

  /** `get_single_shape_value`: one more than the shape's place on the cycle. */
  function ShapeValue(s: Shape): (v: nat)
    ensures v == ShapeIndex(s) + 1
  {
    match s
    case Rock => 1
    case Paper => 2
    case Scissors => 3
  }

  /** The letter mapping of `load_strategy_guide` for the opponent's column. */
  function OpponentShape(letter: string): (r: Option<Shape>)
    ensures r.Some? <==> letter in {"A", "B", "C"}
  {
    if letter == "A" then Some(Rock)
    else if letter == "B" then Some(Paper)
    else if letter == "C" then Some(Scissors)
    else None
  }

  /** The letter mapping of `load_strategy_guide` for the target-outcome column. */
  function TargetOutcome(letter: string): (r: Option<RoundOutcome>)
    ensures r.Some? <==> letter in {"X", "Y", "Z"}
  {
    if letter == "X" then Some(OpponentWon)
    else if letter == "Y" then Some(Tie)
    else if letter == "Z" then Some(PlayerWon)
    else None
  }

  /** The letter the guide uses for an opponent's shape. */
  function OpponentLetter(s: Shape): string {
    match s
    case Rock => "A"
    case Paper => "B"
    case Scissors => "C"
  }

  /** The letter the guide uses for a target outcome. */
  function OutcomeLetter(o: RoundOutcome): string {
    match o
    case OpponentWon => "X"
    case Tie => "Y"
    case PlayerWon => "Z"
  }

  /** One record's two fields decoded, or a failure for an unknown letter. */
  function DecodeRound(record: seq<string>): (r: Option<Strategy>)
    requires |record| >= 2
    ensures r.Some? <==> OpponentShape(record[0]).Some? && TargetOutcome(record[1]).Some?
  {
    match (OpponentShape(record[0]), TargetOutcome(record[1]))
    case (Some(s), Some(o)) => Some((s, o))
    case _ => None
  }

  /** The letters decode back to the shape and the outcome they were written for. */
  lemma DecodeLetters(s: Shape, o: RoundOutcome, extra: seq<string>)
    ensures DecodeRound([OpponentLetter(s), OutcomeLetter(o)] + extra) == Some((s, o))
  {
  }

  /** The records that have at least two fields; shorter ones are skipped and
      do not use up a round id. */
  function Complete(records: seq<seq<string>>): (c: seq<seq<string>>)
    ensures |c| <= |records|
    ensures forall i | 0 <= i < |c| :: |c[i]| >= 2
  {
    if records == [] then []
    else
      var last := records[|records| - 1];
      Complete(records[..|records| - 1]) + (if |last| >= 2 then [last] else [])
  }

  /** `load_strategy_guide`: the complete records keyed by round id 1, 2, 3, ...
      in order; an unknown letter stops the program. */
  method LoadStrategyGuide(records: seq<seq<string>>) returns (r: Option<map<nat, Strategy>>)
    ensures var c := Complete(records);
      r.Some? <==> forall i | 0 <= i < |c| :: DecodeRound(c[i]).Some?
    ensures var c := Complete(records);
      r.Some? ==> forall id: nat :: id in r.value <==> 1 <= id <= |c|
    ensures var c := Complete(records);
      r.Some? ==> forall id | 1 <= id <= |c| :: r.value[id] == DecodeRound(c[id - 1]).value
  {
    var guide: map<nat, Strategy> := map[];
    var roundId: nat := 1;
    for k := 0 to |records|
      invariant var c := Complete(records[..k]);
        && roundId == |c| + 1
        && (forall i | 0 <= i < |c| :: DecodeRound(c[i]).Some?)
        && (forall id: nat :: id in guide <==> 1 <= id <= |c|)
        && (forall id | 1 <= id <= |c| :: guide[id] == DecodeRound(c[id - 1]).value)
    {
      CompleteStep(records, k);
      var entry := records[k];
      if |entry| >= 2 {
        var opponent := OpponentShape(entry[0]);
        var target := TargetOutcome(entry[1]);
        if opponent.None? || target.None? {
          UndecodableRecord(records, k);
          return None;
        }
        guide := guide[roundId := (opponent.value, target.value)];
        roundId := roundId + 1;
      }
    }
    assert records[..|records|] == records;
    return Some(guide);
  }

  /** One more record adds itself to the complete records when it has two
      fields, and nothing otherwise. */
  lemma CompleteStep(records: seq<seq<string>>, k: nat)
    requires k < |records|
    ensures Complete(records[..k + 1]) ==
              Complete(records[..k]) + (if |records[k]| >= 2 then [records[k]] else [])
  {
    assert records[..k + 1][..k] == records[..k];
  }

  /** A complete record that does not decode makes the whole guide fail. */
  lemma UndecodableRecord(records: seq<seq<string>>, k: nat)
    requires k < |records| && |records[k]| >= 2 && DecodeRound(records[k]).None?
    ensures exists i | 0 <= i < |Complete(records)| :: DecodeRound(Complete(records)[i]).None?
  {
    CompleteStep(records, k);
    CompletePrefix(records, k + 1);
    var i := |Complete(records[..k])|;
    assert Complete(records)[i] == records[k];
  }

  /** The complete records of a prefix are a prefix of the complete records. */
  lemma {:induction false} CompletePrefix(records: seq<seq<string>>, k: nat)
    requires k <= |records|
    ensures Complete(records[..k]) <= Complete(records)
    decreases |records| - k
  {
    if k < |records| {
      CompletePrefix(records, k + 1);
      assert records[..k + 1][..k] == records[..k];
    } else {
      assert records[..k] == records;
    }
  }

  /** The contest value of each round. */
  function ContestScores(guide: map<nat, Strategy>): map<nat, int> {
    map id | id in guide :: OutcomeValue(guide[id].1) as int
  }

  /** The value of the shape the player picks in each round. */
  function ShapeScores(guide: map<nat, Strategy>): map<nat, int> {
    map id | id in guide :: ShapeValue(ShapeFor(guide[id].0, guide[id].1)) as int
  }

  /** The full score of each round: the picked shape's value plus the outcome's. */
  function RoundScores(guide: map<nat, Strategy>): map<nat, int> {
    map id | id in guide ::
      (ShapeValue(ShapeFor(guide[id].0, guide[id].1)) + OutcomeValue(guide[id].1)) as int
  }

  /** `get_total_contest_score`: the outcome values of all rounds added up. */
  method TotalContestScore(guide: map<nat, Strategy>) returns (total: int)
    ensures total == Total(ContestScores(guide))
  {
    total := SumValues(ContestScores(guide));
  }

  /** `get_total_shape_value`: the values of the shapes the player picks, added up. */
  method TotalShapeValue(guide: map<nat, Strategy>) returns (total: int)
    ensures total == Total(ShapeScores(guide))
  {
    total := 0;
    var rest := guide;
    while rest != map[]
      invariant total + Total(ShapeScores(rest)) == Total(ShapeScores(guide))
      decreases |rest|
    {
      var id :| id in rest;
      var player := ChoosePlayerShape(rest[id].0, rest[id].1);
      TotalRemove(ShapeScores(rest), id);
      assert ShapeScores(rest) - {id} == ShapeScores(rest - {id});
      RemoveSize(rest, id);
      total := total + ShapeValue(player);
      rest := rest - {id};
    }
  }

  /** `calculate_total_score`: the shape total plus the contest total, which is
      the sum over all rounds of each round's full score. */
  method CalculateTotalScore(guide: map<nat, Strategy>) returns (total: int)
    ensures total == Total(RoundScores(guide))
  {
    var shapes := TotalShapeValue(guide);
    var contests := TotalContestScore(guide);
    TotalAdd(ShapeScores(guide), ContestScores(guide), RoundScores(guide));
    total := shapes + contests;
  }

  /** Every round scores between 1 and 9, so the total lies between the number
      of rounds and nine times that number. */
  lemma TotalScoreBounds(guide: map<nat, Strategy>)
    ensures |guide| <= Total(RoundScores(guide)) <= 9 * |guide|
  {
    assert RoundScores(guide).Keys == guide.Keys;
    assert |RoundScores(guide)| == |guide|;
    TotalBounds(RoundScores(guide), 1, 9);
  }
}
