/** Prices, cost estimates and the structural check on a generated narrative. */
module NarrativeContent {
  import opened Sequences
  import opened Text

  datatype Price = Price(input: real, output: real)

  /** USD per token; models without a rate card are free. */
  function PriceOf(model: string): Price {
    if model == "claude-opus-4-7" then Price(0.000015, 0.000075)
    else if model == "claude-sonnet-4-6" then Price(0.000003, 0.000015)
    else if model == "claude-haiku-4-5" then Price(0.0000008, 0.000004)
    else if model == "gpt-5-mini" then Price(0.0000015, 0.000006)
    else if model == "gpt-4o" then Price(0.0000025, 0.00001)
    else if model == "gpt-4o-mini" then Price(0.00000015, 0.0000006)
    else Price(0.0, 0.0)
  }

  function EstimateCostUsd(model: string, inputTokens: int, outputTokens: int): (cost: real)
    ensures inputTokens >= 0 && outputTokens >= 0 ==> cost >= 0.0
  {
    PriceOf(model).input * inputTokens as real + PriceOf(model).output * outputTokens as real
  }

  const ESTIMATED_OUTPUT_TOKENS := 500

  /** Four characters make a token, and every prompt at least one. */
  function EstimatedInputTokens(promptLength: nat): (tokens: nat)
    ensures if promptLength < 4 then tokens == 1 else 4 * tokens <= promptLength < 4 * (tokens + 1)
  {
    Max(1, promptLength / 4)
  }

  /** The cost assumed for a prompt before it is sent. */
  function EstimateForPrompt(model: string, promptLength: nat): (cost: real)
    ensures cost >= 0.0
  {
    EstimateCostUsd(model, EstimatedInputTokens(promptLength), ESTIMATED_OUTPUT_TOKENS)
  }

  /** Only models without a rate card are free, and output costs at most five times the input. */
  lemma RateCard(model: string)
    ensures 0.0 <= PriceOf(model).input <= PriceOf(model).output <= 5.0 * PriceOf(model).input
  {
  }

  lemma Scaled(x: real, y: real, price: real)
    requires x <= y && price >= 0.0
    ensures x * price <= y * price
  {
  }

  lemma CostGrows(model: string, input1: int, output1: int, input2: int, output2: int)
    requires input1 <= input2 && output1 <= output2
    ensures EstimateCostUsd(model, input1, output1) <= EstimateCostUsd(model, input2, output2)
  {
    RateCard(model);
    Scaled(input1 as real, input2 as real, PriceOf(model).input);
    Scaled(output1 as real, output2 as real, PriceOf(model).output);
  }

  lemma CostSplits(model: string, tokens: int, slack: int, output: int)
    ensures EstimateCostUsd(model, tokens + slack, output)
            == PriceOf(model).input * tokens as real + EstimateCostUsd(model, slack, output)
  {
    var price := PriceOf(model).input;
    assert price * (tokens + slack) as real == price * tokens as real + price * slack as real;
  }

  /** What the assumed output costs pays for this much more input, together with this much output. */
  predicate CoveredByEstimate(model: string, slack: nat, limit: nat) {
    PriceOf(model).input * slack as real + PriceOf(model).output * limit as real
    <= PriceOf(model).output * ESTIMATED_OUTPUT_TOKENS as real
  }

  /** A reply is within the estimate for its prompt exactly when the assumed output pays for what it has on top. */
  lemma CoveredExactly(model: string, promptLength: nat, slack: nat, limit: nat)
    ensures EstimateCostUsd(model, EstimatedInputTokens(promptLength) + slack, limit)
            <= EstimateForPrompt(model, promptLength)
            <==> CoveredByEstimate(model, slack, limit)
  {
    CostSplits(model, EstimatedInputTokens(promptLength), slack, limit);
  }

  /** When the estimate is a ceiling on the cost, for replies with at most this much input on top of its own. */
  lemma EstimateIsCeilingExactly(model: string, promptLength: nat, slack: nat, limit: nat)
    ensures (forall input: int, output: int |
               input <= EstimatedInputTokens(promptLength) + slack && output <= limit ::
               EstimateCostUsd(model, input, output) <= EstimateForPrompt(model, promptLength))
            <==> CoveredByEstimate(model, slack, limit)
  {
    var most := EstimatedInputTokens(promptLength) + slack;
    CoveredExactly(model, promptLength, slack, limit);
    if CoveredByEstimate(model, slack, limit) {
      forall input: int, output: int | input <= most && output <= limit
        ensures EstimateCostUsd(model, input, output) <= EstimateForPrompt(model, promptLength)
      {
        CostGrows(model, input, output, most, limit);
      }
    }
  }

  const REQUIRED_HEADINGS: seq<string> :=
    ["## Why this fired", "## What it means", "## Remediation", "## Caveats"]
  const EM_DASH: char := '\U{2014}'
  const EN_DASH: char := '\U{2013}'
  const WORD_CEILING := 320

  datatype ValidationError =
    | MissingSections(missing: seq<string>)
    | LongDash
    | TooManyWords(words: nat)

  /** Length of the longest prefix made of word characters. */
  function RunLength(text: string, wordChars: set<char>): (n: nat)
    ensures n <= |text|
    ensures forall i | 0 <= i < n :: text[i] in wordChars
    ensures n < |text| ==> text[n] !in wordChars
  {
    if text == [] || text[0] !in wordChars then 0 else 1 + RunLength(text[1..], wordChars)
  }

  /** The non-overlapping leftmost-longest words of `text`. */
  function Words(text: string, wordChars: set<char>): (words: seq<string>)
    decreases |text|
  {
    if text == [] then []
    else if text[0] !in wordChars then Words(text[1..], wordChars)
    else
      var n := RunLength(text, wordChars);
      [text[..n]] + Words(text[n..], wordChars)
  }

  /** `wordChars` is the class the word pattern accepts. */
  function ValidateStructure(content: string, wordChars: set<char>): Option<ValidationError> {
    var missing := Filter(REQUIRED_HEADINGS, heading => !HasPart(content, heading));
    if missing != [] then Some(MissingSections(missing))
    else if EM_DASH in content || EN_DASH in content then Some(LongDash)
    else if |Words(content, wordChars)| > WORD_CEILING then Some(TooManyWords(|Words(content, wordChars)|))
    else None
  }

  /** How often the text passes from outside a word into one; `inside` is the state before it. */
  function WordEntries(text: string, wordChars: set<char>, inside: bool): nat {
    if text == [] then 0
    else
      var isWord := text[0] in wordChars;
      WordEntries(text[1..], wordChars, isWord) + if isWord && !inside then 1 else 0
  }

  /** The scan finds exactly one word per maximal run of word characters. */
  lemma {:induction false} WordsAreMaximalRuns(text: string, wordChars: set<char>)
    ensures |Words(text, wordChars)| == WordEntries(text, wordChars, false)
    ensures |Words(text, wordChars)| <= |text|
    decreases |text|
  {
    if text == [] {
    } else {
      if text[0] in wordChars {
        var n := RunLength(text, wordChars);
        EntriesPastRun(text[1..], wordChars);
        assert text[1..][n - 1..] == text[n..];
        WordsAreMaximalRuns(text[n..], wordChars);
      } else {
        WordsAreMaximalRuns(text[1..], wordChars);
      }
    }
  }

  /** Inside a word, the rest of that word adds no entry. */
  lemma {:induction false} EntriesPastRun(text: string, wordChars: set<char>)
    ensures WordEntries(text, wordChars, true)
            == WordEntries(text[RunLength(text, wordChars)..], wordChars, false)
  {
    var n := RunLength(text, wordChars);
    if n > 0 {
      EntriesPastRun(text[1..], wordChars);
      assert text[1..][n - 1..] == text[n..];
    } else {
      assert text[n..] == text;
    }
  }

  /** Acceptance is all four headings, neither long dash, and at most 320 maximal word runs. */
  lemma AcceptedExactly(content: string, wordChars: set<char>)
    ensures ValidateStructure(content, wordChars) == None <==>
            && (forall heading | heading in REQUIRED_HEADINGS :: HasPart(content, heading))
            && '\U{2014}' !in content && '\U{2013}' !in content
            && WordEntries(content, wordChars, false) <= 320
  {
    var lacks := heading => !HasPart(content, heading);
    FilterMembers(REQUIRED_HEADINGS, lacks);
    var missing := Filter(REQUIRED_HEADINGS, lacks);
    assert missing != [] ==> missing[0] in REQUIRED_HEADINGS && lacks(missing[0]);
    WordsAreMaximalRuns(content, wordChars);
  }
}
