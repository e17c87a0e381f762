/** Comparing two prompt versions by a judge that sees each pair of narratives in both orders. */
module PromptComparison {
  import opened Sequences

  datatype Result<T> = Ok(value: T) | Failed(error: string)

  datatype Winner = A | B | Tie

  /** What the judge answers about the narrative in first place and the one in second place. */
  datatype Answer = Answer(winner: Winner, reason: string)

  datatype Pairwise = Pairwise(winner: Winner, reason: string, swapConsistent: bool)

  datatype Example = Example(finding: string, reference: string)

  /** A judge and a generator that answer the same question the same way every time. */
  datatype Study = Study(
    judge: (string, string, string) -> Result<Answer>,
    generate: (string, string) -> Result<string>)

  datatype Comparison = Comparison(
    versionA: string, versionB: string, examples: nat,
    aWins: nat, bWins: nat, ties: nat, winrateB: real, inconsistentSwaps: nat)

  const REFERENCE_VERSION := "reference"

  function Flip(winner: Winner): Winner {
    match winner
    case A => B
    case B => A
    case Tie => Tie
  }

  /** One winner only when both orders agree on it. */
  function ScorePairwise(study: Study, a: string, b: string, finding: string): Result<Pairwise> {
    match study.judge(a, b, finding)
    case Failed(error) => Failed(error)
    case Ok(first) =>
      match study.judge(b, a, finding)
      case Failed(error) => Failed(error)
      case Ok(swapped) =>
        if first.winner != Flip(swapped.winner) then Ok(Pairwise(Tie, "position-swap disagreed", false))
        else Ok(Pairwise(first.winner, first.reason, true))
  }

  function NarrativeFor(study: Study, example: Example, version: string): Result<string> {
    if version == REFERENCE_VERSION then Ok(example.reference) else study.generate(example.finding, version)
  }

  function Outcome(study: Study, a: string, b: string): Example -> Result<Pairwise> {
    (example: Example) =>
      match NarrativeFor(study, example, a)
      case Failed(error) => Failed(error)
      case Ok(narrativeA) =>
        match NarrativeFor(study, example, b)
        case Failed(error) => Failed(error)
        case Ok(narrativeB) => ScorePairwise(study, narrativeA, narrativeB, example.finding)
  }

  function WonBy(study: Study, a: string, b: string, winner: Winner): Example -> bool {
    (example: Example) => Outcome(study, a, b)(example).Ok? && Outcome(study, a, b)(example).value.winner == winner
  }

  function Inconsistent(study: Study, a: string, b: string): Example -> bool {
    (example: Example) => Outcome(study, a, b)(example).Ok? && !Outcome(study, a, b)(example).value.swapConsistent
  }

  predicate AllJudged(study: Study, a: string, b: string, golden: seq<Example>) {
    forall example | example in golden :: Outcome(study, a, b)(example).Ok?
  }

  function WinrateB(bWins: nat, ties: nat, examples: nat): real {
    (bWins as real + 0.5 * ties as real) / Max(1, examples) as real
  }

  /** The comparison when no call fails. */
  function ComparisonOf(study: Study, a: string, b: string, golden: seq<Example>): Comparison {
    var bWins, ties := Count(golden, WonBy(study, a, b, B)), Count(golden, WonBy(study, a, b, Tie));
    Comparison(a, b, |golden|, Count(golden, WonBy(study, a, b, A)), bWins, ties,
               WinrateB(bWins, ties, |golden|), Count(golden, Inconsistent(study, a, b)))
  }

  method ComparePrompts(study: Study, a: string, b: string, golden: seq<Example>) returns (result: Result<Comparison>)
    ensures AllJudged(study, a, b, golden) ==> result == Ok(ComparisonOf(study, a, b, golden))
    ensures !AllJudged(study, a, b, golden) ==>
              result.Failed? && exists i :: 0 <= i < |golden| && AllJudged(study, a, b, golden[..i])
                                            && Outcome(study, a, b)(golden[i]) == Failed(result.error)
  {
    var aWins, bWins, ties, inconsistent := 0, 0, 0, 0;
    for i := 0 to |golden|
      invariant AllJudged(study, a, b, golden[..i])
      invariant aWins == Count(golden[..i], WonBy(study, a, b, A))
      invariant bWins == Count(golden[..i], WonBy(study, a, b, B))
      invariant ties == Count(golden[..i], WonBy(study, a, b, Tie))
      invariant inconsistent == Count(golden[..i], Inconsistent(study, a, b))
    {
      var example := golden[i];
      var outcome := JudgeExample(study, a, b, example);
      if outcome.Failed? {
        return Failed(outcome.error);
      }
      assert golden[..i + 1][..i] == golden[..i];
      assert golden[..i + 1] == golden[..i] + [example];
      if !outcome.value.swapConsistent {
        inconsistent := inconsistent + 1;
      }
      if outcome.value.winner == A {
        aWins := aWins + 1;
      } else if outcome.value.winner == B {
        bWins := bWins + 1;
      } else {
        ties := ties + 1;
      }
    }
    assert golden[..|golden|] == golden;
    result := Ok(Comparison(a, b, |golden|, aWins, bWins, ties, WinrateB(bWins, ties, |golden|), inconsistent));
  }

  method JudgeExample(study: Study, a: string, b: string, example: Example) returns (outcome: Result<Pairwise>)
    ensures outcome == Outcome(study, a, b)(example)
  {
    var narrativeA := NarrativeFor(study, example, a);
    if narrativeA.Failed? {
      return Failed(narrativeA.error);
    }
    var narrativeB := NarrativeFor(study, example, b);
    if narrativeB.Failed? {
      return Failed(narrativeB.error);
    }
    outcome := ScorePairwise(study, narrativeA.value, narrativeB.value, example.finding);
  }

  // ---------------------------------------------------------------- facts

  lemma SwappedOutcome(study: Study, a: string, b: string, example: Example)
    ensures var there, back := Outcome(study, a, b)(example), Outcome(study, b, a)(example);
            && (there.Ok? <==> back.Ok?)
            && (there.Ok? ==> there.value.winner == Flip(back.value.winner)
                              && there.value.swapConsistent == back.value.swapConsistent)
  {
  }

  /** Swapping the versions exchanges their wins and changes nothing else; either both comparisons fail or none. */
  lemma SwappingExchangesWins(study: Study, a: string, b: string, golden: seq<Example>)
    ensures AllJudged(study, a, b, golden) <==> AllJudged(study, b, a, golden)
    ensures var there, back := ComparisonOf(study, a, b, golden), ComparisonOf(study, b, a, golden);
            && there.aWins == back.bWins && there.bWins == back.aWins
            && there.ties == back.ties && there.inconsistentSwaps == back.inconsistentSwaps
  {
    forall example
      ensures Outcome(study, a, b)(example).Ok? <==> Outcome(study, b, a)(example).Ok?
      ensures forall winner :: WonBy(study, a, b, winner)(example) == WonBy(study, b, a, Flip(winner))(example)
      ensures Inconsistent(study, a, b)(example) == Inconsistent(study, b, a)(example)
    {
      SwappedOutcome(study, a, b, example);
    }
    CountSame(golden, WonBy(study, a, b, A), WonBy(study, b, a, B));
    CountSame(golden, WonBy(study, a, b, B), WonBy(study, b, a, A));
    CountSame(golden, WonBy(study, a, b, Tie), WonBy(study, b, a, Tie));
    CountSame(golden, Inconsistent(study, a, b), Inconsistent(study, b, a));
  }

  function NotWonByA(study: Study, a: string, b: string): Example -> bool {
    (example: Example) => WonBy(study, a, b, B)(example) || WonBy(study, a, b, Tie)(example)
  }

  function Judged(study: Study, a: string, b: string): Example -> bool {
    (example: Example) => Outcome(study, a, b)(example).Ok?
  }

  /** Each example is won by one side or tied, and an inconsistent judgement is a tie. */
  lemma CountsAddUp(study: Study, a: string, b: string, golden: seq<Example>)
    requires AllJudged(study, a, b, golden)
    ensures var c := ComparisonOf(study, a, b, golden);
            && c.aWins + c.bWins + c.ties == c.examples == |golden| && c.inconsistentSwaps <= c.ties
            && c.versionA == a && c.versionB == b
  {
    CountAll(golden, Judged(study, a, b));
    CountSplit(golden, WonBy(study, a, b, B), WonBy(study, a, b, Tie), NotWonByA(study, a, b));
    CountSplit(golden, WonBy(study, a, b, A), NotWonByA(study, a, b), Judged(study, a, b));
    CountImplied(golden, Inconsistent(study, a, b), WonBy(study, a, b, Tie));
  }

  lemma Quotients(x: real, y: real, m: real)
    requires m > 0.0 && x + y == m
    ensures x / m + y / m == 1.0
  {
    assert x / m + y / m == (x + y) / m;
  }

  lemma HalfSums(aWins: nat, bWins: nat, ties: nat, n: nat)
    requires n > 0 && aWins + bWins + ties == n
    ensures WinrateB(bWins, ties, n) + WinrateB(aWins, ties, n) == 1.0
  {
    Quotients(bWins as real + 0.5 * ties as real, aWins as real + 0.5 * ties as real, n as real);
  }

  /** The two winrates share out one whole, except over nothing. */
  lemma WinratesSumToOne(study: Study, a: string, b: string, golden: seq<Example>)
    requires AllJudged(study, a, b, golden)
    ensures ComparisonOf(study, a, b, golden).winrateB + ComparisonOf(study, b, a, golden).winrateB
            == if golden == [] then 0.0 else 1.0
  {
    var there := ComparisonOf(study, a, b, golden);
    CountsAddUp(study, a, b, golden);
    SwappingExchangesWins(study, a, b, golden);
    if golden != [] {
      HalfSums(there.aWins, there.bWins, there.ties, |golden|);
    }
  }

  lemma QuotientAboveHalf(x: real, m: real)
    requires m > 0.0
    ensures x / m > 0.5 <==> x > 0.5 * m
    ensures x / m == 1.0 <==> x == m
    ensures x / m == 0.0 <==> x == 0.0
  {
    var q := x / m;
    assert q * m == x;
    assert (q - 0.5) * m == x - 0.5 * m;
    assert (q - 1.0) * m == x - m;
    SignOfProduct(q - 0.5, m);
  }

  lemma SignOfProduct(x: real, m: real)
    requires m > 0.0
    ensures x > 0.0 <==> x * m > 0.0
  {
  }

  /** The winrate is that of the second version: above a half exactly when it wins more often than the first, one
      exactly when it wins every time, and nothing exactly when the first does. */
  lemma WinrateFavoursTheWinner(study: Study, a: string, b: string, golden: seq<Example>)
    requires AllJudged(study, a, b, golden) && golden != []
    ensures var c := ComparisonOf(study, a, b, golden);
            && (c.winrateB > 0.5 <==> c.bWins > c.aWins)
            && (c.winrateB == 1.0 <==> forall example | example in golden :: WonBy(study, a, b, B)(example))
            && (c.winrateB == 0.0 <==> forall example | example in golden :: WonBy(study, a, b, A)(example))
  {
    var c := ComparisonOf(study, a, b, golden);
    CountsAddUp(study, a, b, golden);
    QuotientAboveHalf(c.bWins as real + 0.5 * c.ties as real, |golden| as real);
    CountFull(golden, WonBy(study, a, b, A));
    CountFull(golden, WonBy(study, a, b, B));
  }

  lemma AllTiesIsHalf(ties: nat)
    requires ties > 0
    ensures WinrateB(0, ties, ties) == 0.5
  {
    HalfSums(0, 0, ties, ties);
  }

  /** When every example is tied the winrate is a half. */
  lemma TiesOnly(study: Study, a: string, b: string, golden: seq<Example>)
    requires golden != [] && forall example | example in golden :: WonBy(study, a, b, Tie)(example)
    ensures ComparisonOf(study, a, b, golden).ties == |golden|
    ensures ComparisonOf(study, a, b, golden).winrateB == 0.5
  {
    CountAll(golden, WonBy(study, a, b, Tie));
    CountsAddUp(study, a, b, golden);
    AllTiesIsHalf(|golden|);
  }

  /** The judge always prefers one place, whatever stands there. */
  ghost predicate PrefersPlace(judge: (string, string, string) -> Result<Answer>, place: Winner) {
    place != Tie && forall x, y, finding :: judge(x, y, finding).Ok? && judge(x, y, finding).value.winner == place
  }

  /** Judging both orders takes position bias out: a judge that only looks at the place decides nothing. */
  lemma PositionBiasCancels(study: Study, place: Winner, a: string, b: string, golden: seq<Example>)
    requires PrefersPlace(study.judge, place) && AllJudged(study, a, b, golden) && golden != []
    ensures ComparisonOf(study, a, b, golden).winrateB == 0.5
    ensures ComparisonOf(study, a, b, golden).inconsistentSwaps == |golden|
  {
    forall example | example in golden
      ensures WonBy(study, a, b, Tie)(example) && Inconsistent(study, a, b)(example)
    {
      assert Outcome(study, a, b)(example).Ok?;
    }
    TiesOnly(study, a, b, golden);
    CountAll(golden, Inconsistent(study, a, b));
  }

  /** A version compared with itself ties every time. */
  lemma SelfComparisonTies(study: Study, a: string, golden: seq<Example>)
    requires AllJudged(study, a, a, golden) && golden != []
    ensures ComparisonOf(study, a, a, golden).ties == |golden| && ComparisonOf(study, a, a, golden).winrateB == 0.5
  {
    forall example | example in golden
      ensures WonBy(study, a, a, Tie)(example)
    {
      SwappedOutcome(study, a, a, example);
      assert Outcome(study, a, a)(example).Ok?;
    }
    TiesOnly(study, a, a, golden);
  }

  /** The judge's two answers about an example name the same narrative. */
  predicate AgreesWithItself(study: Study, a: string, b: string, example: Example) {
    var x, y := NarrativeFor(study, example, a), NarrativeFor(study, example, b);
    x.Ok? && y.Ok?
    && var first := study.judge(x.value, y.value, example.finding);
       var swapped := study.judge(y.value, x.value, example.finding);
       first.Ok? && swapped.Ok? && first.value.winner == Flip(swapped.value.winner)
  }

  /** No swap is reported inconsistent exactly when the judge agrees with itself on every example. */
  lemma ConsistentExactlyWhenAgreeing(study: Study, a: string, b: string, golden: seq<Example>)
    requires AllJudged(study, a, b, golden)
    ensures ComparisonOf(study, a, b, golden).inconsistentSwaps == 0
            <==> forall example | example in golden :: AgreesWithItself(study, a, b, example)
  {
    CountPositive(golden, Inconsistent(study, a, b));
    forall example | example in golden
      ensures Inconsistent(study, a, b)(example) <==> !AgreesWithItself(study, a, b, example)
    {
      assert Outcome(study, a, b)(example).Ok?;
    }
    if example :| example in golden && Inconsistent(study, a, b)(example) {
      var i :| 0 <= i < |golden| && golden[i] == example;
    }
  }

  /** What is judged for a version: the reference text for the reserved name, else what is generated for the finding. */
  ghost predicate Stands(study: Study, example: Example, version: string, narrative: string) {
    if version == REFERENCE_VERSION then narrative == example.reference
    else study.generate(example.finding, version) == Ok(narrative)
  }

  /** Over a golden set the first version wins the examples on which the judge, asked about the finding and the two
      narratives, picks its narrative in both places; likewise the second. */
  lemma WonExactly(study: Study, a: string, b: string, example: Example, x: string, y: string)
    requires Stands(study, example, a, x) && Stands(study, example, b, y)
    requires study.judge(x, y, example.finding).Ok? && study.judge(y, x, example.finding).Ok?
    ensures var first := study.judge(x, y, example.finding).value.winner;
            var second := study.judge(y, x, example.finding).value.winner;
            && (WonBy(study, a, b, A)(example) <==> first == A && second == B)
            && (WonBy(study, a, b, B)(example) <==> first == B && second == A)
            && (WonBy(study, a, b, Tie)(example) <==> !(first == A && second == B) && !(first == B && second == A))
  {
    assert NarrativeFor(study, example, a) == Ok(x) && NarrativeFor(study, example, b) == Ok(y);
    assert Outcome(study, a, b)(example) == ScorePairwise(study, x, y, example.finding);
    WinnersWinInBothPlaces(study, x, y, example.finding);
  }

  /** A side wins exactly when the judge picks it in both places; everything else is a tie. */
  lemma WinnersWinInBothPlaces(study: Study, a: string, b: string, finding: string)
    requires study.judge(a, b, finding).Ok? && study.judge(b, a, finding).Ok?
    ensures var first, second := study.judge(a, b, finding).value.winner, study.judge(b, a, finding).value.winner;
            var result := ScorePairwise(study, a, b, finding);
            && result.Ok?
            && (result.value.winner == A <==> first == A && second == B)
            && (result.value.winner == B <==> first == B && second == A)
            && (!result.value.swapConsistent <==> (first == Tie) != (second == Tie) || (first == second != Tie))
  {
  }
}
