/** Runs that reach the bounds, for every model, prompt and number of permits: `c` identical findings admitted
    together all pass the budget check, all miss the cache, and all store. Hence when the cap is a guarantee. */
module NarrativeTightness {
  import opened Sequences
  import opened Text
  import opened NarrativeContent
  import opened NarrativeCache
  import opened NarrativeBatch
  import opened NarrativeBatchSafety
  import opened NarrativeBatchTheorems
  import opened NarrativeDeduplication

  const MODEL := "claude-opus-4-7"
  const CONTENT := "## Why this fired" + "## What it means" + "## Remediation" + "## Caveats"

  /** A finding whose prompt has this length. */
  function Prompted(promptLength: nat): Task { Task("key", "rule", "digest", promptLength) }

  /** A valid reply with so much input on top of what is assumed for the prompt, and so much output. */
  function Reply(task: Task, model: string, slack: nat, output: int): Response {
    Response(CONTENT, model, "anthropic", EstimatedInputTokens(task.promptLength) + slack, output, 10)
  }

  function Crowd(model: string, c: nat, wordChars: set<char>): Config {
    Config(model, "v1", c, wordChars)
  }

  /** The first `k` of `n` tasks are in phase `ahead`, the others in phase `behind`. */
  function Line(task: Task, n: nat, k: nat, ahead: Phase, behind: Phase): seq<Slot> {
    seq(n, i => Slot(task, if i < k then ahead else behind))
  }

  /** A cap of exactly one estimate, nothing spent, an empty cache. */
  function CrowdStart(config: Config, task: Task): State {
    State(config.concurrency, Line(task, config.concurrency, 0, Admitted, Waiting),
          Dollars(EstimateOf(config, task)), 0.0, 0, map[], None, Tally(0, 0, 0, 0), 0, [], [])
  }

  function Admissions(k: nat): seq<Event> { seq(k, i requires 0 <= i => Admit(i)) }

  function Beginnings(k: nat): seq<Event> { seq(k, i requires 0 <= i => Begin(i, 0, false)) }

  function Replies(k: nat, response: Response): seq<Event> {
    seq(k, i requires 0 <= i => Resume(i, 0, Answered(response)))
  }

  lemma LineMoves(task: Task, n: nat, k: nat, ahead: Phase, behind: Phase)
    requires k < n
    ensures Line(task, n, k, ahead, behind)[k := Slot(task, ahead)] == Line(task, n, k + 1, ahead, behind)
    ensures Line(task, n, n, ahead, behind) == Line(task, n, 0, behind, ahead)
  {
  }

  lemma {:induction false} AllAdmitted(config: Config, task: Task, st: State, k: nat)
    requires k <= config.concurrency == st.permits
    requires st.slots == Line(task, config.concurrency, 0, Admitted, Waiting)
    ensures Replay(config, st, Admissions(k))
            == st.(permits := config.concurrency - k, slots := Line(task, config.concurrency, k, Admitted, Waiting))
  {
    if k == 0 {
    } else {
      AllAdmitted(config, task, st, k - 1);
      assert Admissions(k)[..k - 1] == Admissions(k - 1);
      LineMoves(task, config.concurrency, k - 1, Admitted, Waiting);
    }
  }

  lemma {:induction false} AllBegun(config: Config, task: Task, st: State, k: nat)
    requires k <= config.concurrency
    requires st.slots == Line(task, config.concurrency, 0, FirstCall, Admitted)
    requires task.key !in st.cache && !WouldExceed(st.cap, st.spent, EstimateOf(config, task))
    ensures Replay(config, st, Beginnings(k))
            == st.(calls := st.calls + k, slots := Line(task, config.concurrency, k, FirstCall, Admitted))
  {
    if k == 0 {
    } else {
      AllBegun(config, task, st, k - 1);
      assert Beginnings(k)[..k - 1] == Beginnings(k - 1);
      LineMoves(task, config.concurrency, k - 1, FirstCall, Admitted);
    }
  }

  lemma OneStored(config: Config, st: State, i: nat, response: Response)
    requires i < |st.slots| && st.slots[i].phase.FirstCall? && Accepted(config, response)
    ensures var next := Step(config, st, Resume(i, 0, Answered(response)));
            && next.slots == st.slots[i := Slot(st.slots[i].task, Finished(Generated))]
            && next.spent == st.spent + CostOf(config, response)
  {
  }

  lemma LastReply(config: Config, st: State, k: nat, response: Response)
    requires k > 0
    ensures Replay(config, st, Replies(k, response))
            == Step(config, Replay(config, st, Replies(k - 1, response)), Resume(k - 1, 0, Answered(response)))
  {
    assert Replies(k, response)[..k - 1] == Replies(k - 1, response);
  }

  lemma {:induction false} AllStored(config: Config, task: Task, st: State, k: nat, response: Response, cost: real)
    requires k <= config.concurrency
    requires st.slots == Line(task, config.concurrency, 0, Finished(Generated), FirstCall)
    requires Accepted(config, response) && cost == CostOf(config, response)
    ensures var end := Replay(config, st, Replies(k, response));
            && end.slots == Line(task, config.concurrency, k, Finished(Generated), FirstCall)
            && end.spent == st.spent + Times(k, cost)
  {
    if k == 0 {
    } else {
      AllStored(config, task, st, k - 1, response, cost);
      LastReply(config, st, k, response);
      var before := Replay(config, st, Replies(k - 1, response));
      OneStored(config, before, k - 1, response);
      LineMoves(task, config.concurrency, k - 1, Finished(Generated), FirstCall);
      assert Replay(config, st, Replies(k, response)) == Step(config, before, Resume(k - 1, 0, Answered(response)));
    }
  }

  lemma Contains(before: string, part: string, after: string)
    ensures HasPart(before + part + after, part)
  {
    assert OccursAt(before + part + after, part, |before|);
  }

  lemma HeadingsInOrder(a: string, b: string, c: string, d: string)
    ensures HasPart(a + b + c + d, a) && HasPart(a + b + c + d, b)
    ensures HasPart(a + b + c + d, c) && HasPart(a + b + c + d, d)
  {
    Contains([], a, b + c + d);
    assert [] + a + (b + c + d) == a + b + c + d;
    Contains(a, b, c + d);
    assert a + b + (c + d) == a + b + c + d;
    Contains(a + b, c, d);
    Contains(a + b + c, d, []);
    assert a + b + c + d + [] == a + b + c + d;
  }

  lemma SampleIsShort()
    ensures |CONTENT| <= WORD_CEILING
  {
  }

  lemma SampleIsPlain()
    ensures EM_DASH !in CONTENT && EN_DASH !in CONTENT
  {
  }

  lemma SampleHasHeadings()
    ensures forall heading | heading in REQUIRED_HEADINGS :: HasPart(CONTENT, heading)
  {
    HeadingsInOrder("## Why this fired", "## What it means", "## Remediation", "## Caveats");
  }

  lemma SampleIsAccepted(config: Config)
    ensures ValidateStructure(CONTENT, config.wordChars) == None
  {
    SampleIsShort();
    SampleIsPlain();
    SampleHasHeadings();
    WordsAreMaximalRuns(CONTENT, config.wordChars);
    AcceptedExactly(CONTENT, config.wordChars);
  }

  function CrowdSchedule(c: nat, response: Response): seq<Event> {
    Admissions(c) + (Beginnings(c) + Replies(c, response))
  }

  function CrowdAdmitted(config: Config, task: Task): State {
    var slots := Line(task, config.concurrency, config.concurrency, Admitted, Waiting);
    CrowdStart(config, task).(permits := 0, slots := slots)
  }

  function CrowdCalling(config: Config, task: Task): State {
    CrowdAdmitted(config, task).(calls := config.concurrency,
                           slots := Line(task, config.concurrency, config.concurrency, FirstCall, Admitted))
  }

  lemma CrowdIsAdmitted(config: Config, task: Task)
    ensures Replay(config, CrowdStart(config, task), Admissions(config.concurrency)) == CrowdAdmitted(config, task)
  {
    AllAdmitted(config, task, CrowdStart(config, task), config.concurrency);
  }

  lemma CrowdIsCalling(config: Config, task: Task)
    ensures Replay(config, CrowdAdmitted(config, task), Beginnings(config.concurrency)) == CrowdCalling(config, task)
  {
    LinesMeet(task, config.concurrency, Admitted, Waiting, FirstCall);
    AllBegun(config, task, CrowdAdmitted(config, task), config.concurrency);
  }

  lemma CrowdPasses(config: Config, task: Task, response: Response)
    ensures Replay(config, CrowdStart(config, task), CrowdSchedule(config.concurrency, response))
            == Replay(config, CrowdCalling(config, task), Replies(config.concurrency, response))
  {
    var c := config.concurrency;
    CrowdIsAdmitted(config, task);
    CrowdIsCalling(config, task);
    ReplayThree(config, CrowdStart(config, task), Admissions(c), Beginnings(c), Replies(c, response),
                CrowdAdmitted(config, task), CrowdCalling(config, task));
  }

  lemma CrowdStores(config: Config, task: Task, response: Response)
    requires Accepted(config, response)
    ensures var end := Replay(config, CrowdCalling(config, task), Replies(config.concurrency, response));
            && end.slots == Line(task, config.concurrency, config.concurrency, Finished(Generated), FirstCall)
            && end.spent == Times(config.concurrency, CostOf(config, response))
  {
    LinesMeet(task, config.concurrency, FirstCall, Admitted, Finished(Generated));
    AllStored(config, task, CrowdCalling(config, task), config.concurrency, response, CostOf(config, response));
  }

  lemma ReplayThree(config: Config, st0: State, a: seq<Event>, b: seq<Event>, c: seq<Event>, st1: State, st2: State)
    requires st1 == Replay(config, st0, a) && st2 == Replay(config, st1, b)
    ensures Replay(config, st0, a + (b + c)) == Replay(config, st2, c)
  {
    ReplayAppend(config, st0, a, b + c);
    ReplayAppend(config, st1, b, c);
  }

  lemma LinesMeet(task: Task, n: nat, ahead: Phase, behind: Phase, next: Phase)
    ensures Line(task, n, n, ahead, behind) == Line(task, n, 0, next, ahead)
  {
  }

  lemma CrowdIsWithin(config: Config, task: Task, response: Response, f: Task -> real)
    requires CostOf(config, response) <= f(task)
    ensures CostsWithin(config, CrowdStart(config, task), CrowdSchedule(config.concurrency, response), f)
  {
    var st0, schedule := CrowdStart(config, task), CrowdSchedule(config.concurrency, response);
    forall k | 0 <= k < |schedule|
      ensures CostWithin(config, st0, schedule[k], f)
    {
      assert schedule[k].Resume? ==> schedule[k].reply == Answered(response);
    }
  }

  lemma {:induction false} LineCount(task: Task, n: nat, k: nat)
    requires k <= n
    ensures Count(Line(task, n, n, Finished(Generated), FirstCall)[..k], OnKey(task.key, EndedAs(Generated))) == k
  {
    var line := Line(task, n, n, Finished(Generated), FirstCall);
    if k == 0 {
    } else {
      LineCount(task, n, k - 1);
      assert line[..k][..k - 1] == line[..k - 1];
    }
  }

  /** Where a crowd ends: one narrative per permit, and the cost of each. */
  lemma CrowdEnds(config: Config, task: Task, response: Response, end: State)
    requires Accepted(config, response)
    requires end == Replay(config, CrowdStart(config, task), CrowdSchedule(config.concurrency, response))
    ensures Initial(config, CrowdStart(config, task))
    ensures end.spent == Times(config.concurrency, CostOf(config, response))
    ensures GeneratedFor(end, task.key) == config.concurrency
  {
    CrowdPasses(config, task, response);
    CrowdStores(config, task, response);
    var line := Line(task, config.concurrency, config.concurrency, Finished(Generated), FirstCall);
    LineCount(task, config.concurrency, config.concurrency);
    assert line[..config.concurrency] == line;
  }

  /** For every model, prompt and number of permits both bounds are reached: on this honest run one key is
      generated once per permit, and the spend passes the cap by one estimate for every permit but one. */
  lemma BoundsAreReached(config: Config, task: Task, end: State)
    requires config.concurrency > 0
    requires end == Replay(config, CrowdStart(config, task),
                           CrowdSchedule(config.concurrency, Reply(task, config.model, 0, ESTIMATED_OUTPUT_TOKENS)))
    ensures Initial(config, CrowdStart(config, task))
    ensures CostsWithin(config, CrowdStart(config, task),
                        CrowdSchedule(config.concurrency, Reply(task, config.model, 0, ESTIMATED_OUTPUT_TOKENS)),
                        Estimates(config))
    ensures GeneratedFor(end, task.key) == config.concurrency
    ensures end.spent
            == CrowdStart(config, task).cap.amount + Times(config.concurrency - 1, EstimateOf(config, task))
  {
    var response := Reply(task, config.model, 0, ESTIMATED_OUTPUT_TOKENS);
    SampleIsAccepted(config);
    CrowdIsWithin(config, task, response, Estimates(config));
    CrowdEnds(config, task, response, end);
  }

  /** With `c` permits, no honest schedule of any batch passes its cap. */
  ghost predicate CapAlwaysKept(c: nat) {
    forall config: Config, st0: State, schedule: seq<Event> ::
      config.concurrency == c && Initial(config, st0) && st0.cap.Dollars? && st0.spent <= st0.cap.amount
      && CostsWithin(config, st0, schedule, Estimates(config))
      ==> Replay(config, st0, schedule).spent <= st0.cap.amount
  }

  /** With `c` permits, no schedule of any batch generates a key twice. */
  ghost predicate KeysNeverRepeated(c: nat) {
    forall config: Config, st0: State, schedule: seq<Event>, key: string ::
      config.concurrency == c && Initial(config, st0) ==> GeneratedFor(Replay(config, st0, schedule), key) <= 1
  }

  lemma EstimatesBounded(config: Config, slots: seq<Slot>) returns (a: real)
    ensures a >= 0.0 && forall i | 0 <= i < |slots| :: EstimateOf(config, slots[i].task) <= a
  {
    a := 0.0;
    var k := 0;
    while k < |slots|
      invariant 0 <= k <= |slots| && a >= 0.0
      invariant forall i | 0 <= i < k :: EstimateOf(config, slots[i].task) <= a
    {
      a := MaxReal(a, EstimateOf(config, slots[k].task));
      k := k + 1;
    }
  }

  lemma SerialKeepsCap(config: Config, st0: State, schedule: seq<Event>)
    requires config.concurrency == 1 && Initial(config, st0) && st0.cap.Dollars? && st0.spent <= st0.cap.amount
    requires CostsWithin(config, st0, schedule, Estimates(config))
    ensures Replay(config, st0, schedule).spent <= st0.cap.amount
  {
    var a := EstimatesBounded(config, st0.slots);
    HonestSpendBound(config, st0, schedule, Replay(config, st0, schedule), a);
  }

  /** The cap is a guarantee exactly for a serial generator, even when every estimate is honest. */
  lemma CapKeptExactlyWhenSerial(c: nat)
    requires c > 0
    ensures CapAlwaysKept(c) <==> c == 1
  {
    if c == 1 {
      forall config: Config, st0: State, schedule: seq<Event> |
        config.concurrency == c && Initial(config, st0) && st0.cap.Dollars? && st0.spent <= st0.cap.amount
        && CostsWithin(config, st0, schedule, Estimates(config))
        ensures Replay(config, st0, schedule).spent <= st0.cap.amount
      {
        SerialKeepsCap(config, st0, schedule);
      }
    } else {
      var config, task := Crowd(MODEL, c, {}), Prompted(4000);
      var schedule := CrowdSchedule(c, Reply(task, MODEL, 0, ESTIMATED_OUTPUT_TOKENS));
      BoundsAreReached(config, task, Replay(config, CrowdStart(config, task), schedule));
      assert EstimateOf(config, task) > 0.0;
      TimesGrows(1, c - 1, EstimateOf(config, task));
      assert !CapAlwaysKept(c);
    }
  }

  /** The cache deduplicates a batch exactly when the generator is serial. */
  lemma KeysUniqueExactlyWhenSerial(c: nat)
    requires c > 0
    ensures KeysNeverRepeated(c) <==> c == 1
  {
    if c == 1 {
      forall config: Config, st0: State, schedule: seq<Event>, key: string |
        config.concurrency == c && Initial(config, st0)
        ensures GeneratedFor(Replay(config, st0, schedule), key) <= 1
      {
        GeneratedPerKey(config, st0, schedule, key);
      }
    } else {
      var config, task := Crowd(MODEL, c, {}), Prompted(4000);
      var schedule := CrowdSchedule(c, Reply(task, MODEL, 0, ESTIMATED_OUTPUT_TOKENS));
      BoundsAreReached(config, task, Replay(config, CrowdStart(config, task), schedule));
      assert !KeysNeverRepeated(c);
    }
  }

  // ---------------------------------------------------------------- what the cap is worth

  /**
   * The accepted replies have at most `slack` more input than assumed for their prompts and at most `limit`
   * output. A reply to the second request has more, as that request repeats the first reply.
   */
  ghost predicate TokensWithin(config: Config, st0: State, schedule: seq<Event>, slack: nat, limit: nat) {
    forall k | 0 <= k < |schedule| :: EventTokensWithin(config, st0, schedule[k], slack, limit)
  }

  predicate EventTokensWithin(config: Config, st0: State, event: Event, slack: nat, limit: nat) {
    event.index < |st0.slots| && event.Resume? && event.reply.Answered? && Accepted(config, event.reply.response) ==>
      && event.reply.response.inputTokens <= EstimatedInputTokens(st0.slots[event.index].task.promptLength) + slack
      && event.reply.response.outputTokens <= limit
  }

  /** With this model, `c` permits and replies of such sizes, no schedule of any batch passes its cap. */
  ghost predicate CapIsGuarantee(model: string, c: nat, slack: nat, limit: nat) {
    forall config: Config, st0: State, schedule: seq<Event> ::
      config.model == model && config.concurrency == c && Initial(config, st0)
      && st0.cap.Dollars? && st0.spent <= st0.cap.amount && TokensWithin(config, st0, schedule, slack, limit)
      ==> Replay(config, st0, schedule).spent <= st0.cap.amount
  }

  lemma TokensGiveCosts(config: Config, st0: State, schedule: seq<Event>, slack: nat, limit: nat)
    requires TokensWithin(config, st0, schedule, slack, limit) && CoveredByEstimate(config.model, slack, limit)
    ensures CostsWithin(config, st0, schedule, Estimates(config))
  {
    forall k | 0 <= k < |schedule|
      ensures CostWithin(config, st0, schedule[k], Estimates(config))
    {
      var event := schedule[k];
      assert EventTokensWithin(config, st0, event, slack, limit);
      if event.index < |st0.slots| && event.Resume? && event.reply.Answered? {
        EstimateIsCeilingExactly(config.model, st0.slots[event.index].task.promptLength, slack, limit);
      }
    }
  }

  lemma FreeCovers(model: string, slack: nat, limit: nat)
    requires PriceOf(model).output == 0.0
    ensures CoveredByEstimate(model, slack, limit)
  {
    RateCard(model);
  }

  lemma FreeModelKeepsCap(config: Config, st0: State, schedule: seq<Event>, slack: nat, limit: nat)
    requires config.concurrency > 0 && Initial(config, st0) && st0.cap.Dollars? && st0.spent <= st0.cap.amount
    requires PriceOf(config.model).output == 0.0 && TokensWithin(config, st0, schedule, slack, limit)
    ensures Replay(config, st0, schedule).spent <= st0.cap.amount
  {
    RateCard(config.model);
    FreeCovers(config.model, slack, limit);
    TokensGiveCosts(config, st0, schedule, slack, limit);
    forall i | 0 <= i < |st0.slots|
      ensures EstimateOf(config, st0.slots[i].task) <= 0.0
    {
    }
    HonestSpendBound(config, st0, schedule, Replay(config, st0, schedule), 0.0);
    NothingTimes(config.concurrency - 1);
  }

  lemma NothingTimes(n: nat)
    ensures Times(n, 0.0) == 0.0
  {
    TimesIsProduct(n, 0.0);
  }

  lemma CrowdTokensWithin(config: Config, task: Task, output: nat, slack: nat, limit: nat)
    requires output <= limit
    ensures TokensWithin(config, CrowdStart(config, task),
                         CrowdSchedule(config.concurrency, Reply(task, config.model, slack, output)), slack, limit)
  {
    var response := Reply(task, config.model, slack, output);
    var st0, schedule := CrowdStart(config, task), CrowdSchedule(config.concurrency, response);
    forall k | 0 <= k < |schedule|
      ensures EventTokensWithin(config, st0, schedule[k], slack, limit)
    {
      assert schedule[k].Resume? ==> schedule[k].reply == Answered(response);
    }
  }

  /** For every prompt, a reply the estimate does not cover takes a serial run past its cap. */
  lemma UncoveredReplyPassesTheCap(config: Config, task: Task, slack: nat, output: nat, end: State)
    requires config.concurrency == 1 && !CoveredByEstimate(config.model, slack, output)
    requires end == Replay(config, CrowdStart(config, task),
                           CrowdSchedule(1, Reply(task, config.model, slack, output)))
    ensures Initial(config, CrowdStart(config, task)) && end.spent > CrowdStart(config, task).cap.amount
  {
    var response := Reply(task, config.model, slack, output);
    SampleIsAccepted(config);
    CrowdEnds(config, task, response, end);
    assert Times(1, CostOf(config, response)) == CostOf(config, response);
    CoveredExactly(config.model, task.promptLength, slack, output);
  }

  /** A long prompt costs more than the assumed output, so two such narratives cost more than one estimate. */
  lemma LongPromptsOutweighOutput(model: string)
    requires PriceOf(model).output > 0.0
    ensures 2.0 * EstimateCostUsd(model, EstimatedInputTokens(10_004), 0) > EstimateForPrompt(model, 10_004)
  {
    RateCard(model);
    assert EstimatedInputTokens(10_004) == 2501;
    assert 2501.0 * PriceOf(model).input > 500.0 * PriceOf(model).output;
  }

  /** For every priced model, two permits are enough to pass the cap, however short the replies. */
  lemma LongPromptsPassTheCap(config: Config, end: State)
    requires config.concurrency > 1 && PriceOf(config.model).output > 0.0
    requires end == Replay(config, CrowdStart(config, Prompted(10_004)),
                           CrowdSchedule(config.concurrency, Reply(Prompted(10_004), config.model, 0, 0)))
    ensures Initial(config, CrowdStart(config, Prompted(10_004)))
    ensures end.spent > CrowdStart(config, Prompted(10_004)).cap.amount
  {
    var task := Prompted(10_004);
    var cost := CostOf(config, Reply(task, config.model, 0, 0));
    SampleIsAccepted(config);
    CrowdEnds(config, task, Reply(task, config.model, 0, 0), end);
    LongPromptsOutweighOutput(config.model);
    TimesGrows(2, config.concurrency, cost);
    assert Times(2, cost) == Times(1, cost) + cost == 2.0 * cost;
  }

  /**
   * What the cap is worth for a model, a number of permits and the sizes of replies: it is a guarantee exactly for
   * models without a price, and for a serial generator whose replies the assumed output pays for.
   */
  lemma CapIsGuaranteeExactly(model: string, c: nat, slack: nat, limit: nat)
    requires c > 0
    ensures CapIsGuarantee(model, c, slack, limit)
            <==> PriceOf(model).output == 0.0 || (c == 1 && CoveredByEstimate(model, slack, limit))
  {
    RateCard(model);
    if PriceOf(model).output == 0.0 || (c == 1 && CoveredByEstimate(model, slack, limit)) {
      forall config: Config, st0: State, schedule: seq<Event> |
        config.model == model && config.concurrency == c && Initial(config, st0)
        && st0.cap.Dollars? && st0.spent <= st0.cap.amount && TokensWithin(config, st0, schedule, slack, limit)
        ensures Replay(config, st0, schedule).spent <= st0.cap.amount
      {
        if PriceOf(model).output == 0.0 {
          FreeModelKeepsCap(config, st0, schedule, slack, limit);
        } else {
          TokensGiveCosts(config, st0, schedule, slack, limit);
          SerialKeepsCap(config, st0, schedule);
        }
      }
    } else {
      CapIsNoGuarantee(model, c, slack, limit);
    }
  }

  lemma CapIsNoGuarantee(model: string, c: nat, slack: nat, limit: nat)
    requires c > 0 && PriceOf(model).output > 0.0 && (c > 1 || !CoveredByEstimate(model, slack, limit))
    ensures !CapIsGuarantee(model, c, slack, limit)
  {
    var config, task := Crowd(model, c, {}), Prompted(10_004);
    var st0 := CrowdStart(config, task);
    if c == 1 {
      var schedule := CrowdSchedule(c, Reply(task, model, slack, limit));
      CrowdTokensWithin(config, task, limit, slack, limit);
      UncoveredReplyPassesTheCap(config, task, slack, limit, Replay(config, st0, schedule));
    } else {
      var schedule := CrowdSchedule(c, Reply(task, model, 0, 0));
      CrowdTokensWithin(config, task, 0, 0, limit);
      LessInputIsWithin(config, st0, schedule, slack, limit);
      LongPromptsPassTheCap(config, Replay(config, st0, schedule));
    }
  }

  lemma LessInputIsWithin(config: Config, st0: State, schedule: seq<Event>, slack: nat, limit: nat)
    requires TokensWithin(config, st0, schedule, 0, limit)
    ensures TokensWithin(config, st0, schedule, slack, limit)
  {
    forall k | 0 <= k < |schedule|
      ensures EventTokensWithin(config, st0, schedule[k], slack, limit)
    {
      assert EventTokensWithin(config, st0, schedule[k], 0, limit);
    }
  }

  /** Without input on top, which excludes second requests, the condition is about the output alone. */
  lemma CoveredWithoutSlack(model: string, limit: nat)
    ensures CoveredByEstimate(model, 0, limit) <==> limit <= ESTIMATED_OUTPUT_TOKENS || PriceOf(model).output == 0.0
  {
    RateCard(model);
    if limit <= ESTIMATED_OUTPUT_TOKENS {
      Scaled(limit as real, ESTIMATED_OUTPUT_TOKENS as real, PriceOf(model).output);
    } else {
      var over := limit - ESTIMATED_OUTPUT_TOKENS;
      assert PriceOf(model).output > 0.0 ==> PriceOf(model).output * over as real > 0.0;
    }
  }

  lemma MoreIsNotCovered(model: string, slack: nat, limit: nat)
    requires limit > ESTIMATED_OUTPUT_TOKENS && PriceOf(model).output > 0.0
    ensures !CoveredByEstimate(model, slack, limit)
  {
    CoveredWithoutSlack(model, limit);
    RateCard(model);
    Scaled(0.0, slack as real, PriceOf(model).input);
  }

  /** Replies as long as assumed leave no room for any input on top, such as that of a second request. */
  lemma AssumedOutputLeavesNoRoom(model: string, slack: nat)
    ensures CapIsGuarantee(model, 1, slack, ESTIMATED_OUTPUT_TOKENS) <==> slack == 0 || PriceOf(model).output == 0.0
  {
    RateCard(model);
    CapIsGuaranteeExactly(model, 1, slack, ESTIMATED_OUTPUT_TOKENS);
    assert slack > 0 && PriceOf(model).output > 0.0 ==> PriceOf(model).input * slack as real > 0.0;
  }

  /** What a request allows a reply to have. */
  const MAX_OUTPUT_TOKENS := 900

  /** As the requests are configured, the cap is no guarantee for any priced model, serial or not. */
  lemma ConfiguredCapIsGuaranteeExactly(model: string, c: nat, slack: nat)
    requires c > 0
    ensures CapIsGuarantee(model, c, slack, MAX_OUTPUT_TOKENS) <==> PriceOf(model).output == 0.0
  {
    RateCard(model);
    CapIsGuaranteeExactly(model, c, slack, MAX_OUTPUT_TOKENS);
    if PriceOf(model).output > 0.0 {
      MoreIsNotCovered(model, slack, MAX_OUTPUT_TOKENS);
    }
  }
}
