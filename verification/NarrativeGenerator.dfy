/** The generator and its budget as the objects the batch updates in place, each atomic segment proved
    against the matching step of the transition system. */
module NarrativeGenerator {
  import opened Sequences
  import opened NarrativeContent
  import Store = NarrativeCache
  import opened NarrativeBatch
  import opened NarrativeBatchSafety
  import opened NarrativeBatchTheorems
  import opened NarrativeOutcomes

  class NarrativeBudget {
    const cap: Cap
    var dollarsSpent: real
    var skippedCount: nat

    constructor (cap: Cap)
      ensures this.cap == cap && dollarsSpent == 0.0 && skippedCount == 0
    {
      this.cap := cap;
      dollarsSpent, skippedCount := 0.0, 0;
    }

    method WouldExceed(estimatedCost: real) returns (exceeds: bool)
      ensures exceeds <==> cap.Dollars? && dollarsSpent + estimatedCost > cap.amount
    {
      exceeds := match cap case Unlimited => false case Dollars(amount) => dollarsSpent + estimatedCost > amount;
    }

    method Record(actualCost: real)
      modifies `dollarsSpent
      ensures dollarsSpent == old(dollarsSpent) + actualCost
    {
      dollarsSpent := dollarsSpent + actualCost;
    }

    method RecordSkip()
      modifies `skippedCount
      ensures skippedCount == old(skippedCount) + 1
    {
      skippedCount := skippedCount + 1;
    }
  }

  datatype BatchResult = BatchResult(tally: Tally, dollarsSpent: real)

  /** A coroutine's uncaught exception reaches the caller; without one the result comes when all are over. */
  datatype BatchEnd = Returned(result: BatchResult) | Raised | Unfinished

  class NarrativeGenerator {
    const config: Config
    const budget: NarrativeBudget
    const cache: Store.NarrativeCache
    var lastResponse: Option<Response>
    // the running batch
    var permits: int
    var slots: seq<Slot>
    var tally: Tally
    ghost var calls: nat
    ghost var served: seq<Served>
    ghost var stored: seq<Stored>

    constructor (config: Config, budget: NarrativeBudget, cache: Store.NarrativeCache)
      ensures this.config == config && this.budget == budget && this.cache == cache
      ensures lastResponse == None && permits == config.concurrency && slots == []
    {
      this.config, this.budget, this.cache := config, budget, cache;
      lastResponse, permits, slots, tally := None, config.concurrency, [], Tally(0, 0, 0, 0);
      calls, served, stored := 0, [], [];
    }

    ghost function Snapshot(): State
      reads this, budget, cache
    {
      State(permits, slots, budget.cap, budget.dollarsSpent, budget.skippedCount, cache.rows,
            lastResponse, tally, calls, served, stored)
    }

    method SetPhase(i: nat, phase: Phase)
      requires i < |slots|
      modifies `slots
      ensures slots == old(slots)[i := old(slots)[i].(phase := phase)]
    {
      slots := slots[i := slots[i].(phase := phase)];
    }

    method Finish(i: nat, outcome: Outcome)
      requires i < |slots|
      modifies `slots, `permits, `tally
      ensures Snapshot() == Settle(old(Snapshot()), i, outcome)
    {
      SetPhase(i, Finished(outcome));
      match outcome {
        case CacheHit => tally := tally.(cacheHits := tally.cacheHits + 1);
        case Generated => tally := tally.(generated := tally.generated + 1);
        case SkippedBudget => tally := tally.(skippedBudget := tally.skippedBudget + 1);
        case Errored => tally := tally.(errored := tally.errored + 1);
        case Crashed =>
      }
      permits := permits + 1;
    }

    /** A task that holds a permit runs to its first suspension. */
    method BeginTask(i: nat, now: int, renderFails: bool)
      requires i < |slots|
      modifies this, budget, cache
      ensures Snapshot() == BeginStep(config, old(Snapshot()), i, now, renderFails)
    {
      var task := slots[i].task;
      var cached := cache.GetCachedNarrative(task.key, now);
      if cached.Some? {
        Finish(i, CacheHit);
        return;
      }
      if renderFails {
        Finish(i, Crashed);
        return;
      }
      var estimate := EstimateForPrompt(config.model, task.promptLength);
      var exceeds := budget.WouldExceed(estimate);
      if exceeds {
        budget.RecordSkip();
        Finish(i, SkippedBudget);
        return;
      }
      calls := calls + 1;
      SetPhase(i, FirstCall);
    }

    /** After a valid reply: spend and row come from the shared last response. */
    method RecordNarrative(i: nat, markdown: string, now: int)
      requires i < |slots| && lastResponse.Some?
      modifies this, budget, cache
      ensures Snapshot() == RecordStep(config, old(Snapshot()), i, markdown, now)
    {
      var last := lastResponse.value;
      budget.Record(EstimateCostUsd(config.model, last.inputTokens, last.outputTokens));
      var row := RowFor(config, slots[i].task, markdown, last, now);
      cache.StoreNarrative(row);
      stored := stored + [Stored(i, row)];
      Finish(i, Generated);
    }

    /** A suspended task receives its reply: accept it, ask once more, or give up. */
    method ResumeTask(i: nat, now: int, reply: Reply)
      requires i < |slots|
      modifies this, budget, cache
      ensures Snapshot() == ResumeStep(config, old(Snapshot()), i, now, reply)
    {
      match reply {
        case ProviderFailed => Finish(i, Errored);
        case OtherFailure => Finish(i, Crashed);
        case Answered(response) =>
          lastResponse := Some(response);
          served := served + [Served(i, response, now)];
          var problem := ValidateStructure(response.content, config.wordChars);
          if problem.None? {
            RecordNarrative(i, response.content, now);
          } else if slots[i].phase.FirstCall? {
            calls := calls + 1;
            SetPhase(i, RetryCall);
          } else {
            Finish(i, Errored);
          }
      }
    }

    method RunEvent(event: Event)
      modifies this, budget, cache
      ensures Snapshot() == Step(config, old(Snapshot()), event)
    {
      if event.index >= |slots| {
        return;
      }
      var phase := slots[event.index].phase;
      match event {
        case Admit(i) =>
          if phase.Waiting? && permits > 0 {
            permits := permits - 1;
            SetPhase(i, Admitted);
          }
        case Begin(i, now, renderFails) =>
          if phase.Admitted? {
            BeginTask(i, now, renderFails);
          }
        case Resume(i, now, reply) =>
          if phase.FirstCall? || phase.RetryCall? {
            ResumeTask(i, now, reply);
          }
      }
    }

    /** One batch under the given schedule of the event loop and the provider. */
    method GenerateBatch(sha: string -> string, findings: seq<Finding>, schedule: seq<Event>) returns (end: BatchEnd)
      requires permits == config.concurrency
      modifies this, budget, cache
      ensures exists st0 :: BatchOf(old(Snapshot()), Map(findings, TaskFor(sha, config)), st0) && Initial(config, st0)
                            && Snapshot() == Replay(config, st0, schedule)
                            && (end.Raised? <==> Earned(config, st0, schedule, Crashed) > 0)
      ensures end.Raised? <==> Count(slots, EndedAs(Crashed)) > 0
      ensures end.Unfinished? <==> !end.Raised? && !AllFinished(Snapshot())
      ensures (forall event | event in schedule :: !IsFailure(event)) ==> !end.Raised?
      ensures end.Returned? ==>
                && end.result == BatchResult(tally, budget.dollarsSpent)
                && permits == config.concurrency
                && tally.cacheHits + tally.generated + tally.skippedBudget + tally.errored == |findings|
                && budget.skippedCount == old(budget.skippedCount) + tally.skippedBudget
    {
      var tasks := Map(findings, TaskFor(sha, config));
      slots := Map(tasks, task => Slot(task, Waiting));
      tally := Tally(0, 0, 0, 0);
      calls, served, stored := 0, [], [];
      ghost var st0 := Snapshot();
      var k := 0;
      while k < |schedule|
        invariant 0 <= k <= |schedule|
        invariant Snapshot() == Replay(config, st0, schedule[..k])
      {
        RunEvent(schedule[k]);
        k := k + 1;
        assert schedule[..k][..k - 1] == schedule[..k - 1];
      }
      assert schedule[..k] == schedule;
      assert BatchOf(old(Snapshot()), tasks, st0);
      OutcomesAreEarned(config, st0, schedule, Crashed);
      if forall event | event in schedule :: !IsFailure(event) {
        HandledBatchAddsUp(config, st0, schedule);
      }
      if Count(slots, EndedAs(Crashed)) > 0 {
        return Raised;
      }
      if exists i :: 0 <= i < |slots| && !slots[i].phase.Finished? {
        return Unfinished;
      }
      FinishedBatchAddsUp(config, st0, schedule);
      end := Returned(BatchResult(tally, budget.dollarsSpent));
    }
  }

  /** A new batch of `tasks` that inherits budget, cache and last response from `before`. */
  ghost predicate BatchOf(before: State, tasks: seq<Task>, st0: State) {
    && |st0.slots| == |tasks|
    && (forall i | 0 <= i < |tasks| :: st0.slots[i].task == tasks[i])
    && st0.cap == before.cap && st0.spent == before.spent && st0.skipped == before.skipped
    && st0.cache == before.cache && st0.last == before.last
  }
}
