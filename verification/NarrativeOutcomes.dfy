/** Which events end a coroutine, and how: each outcome counted by what the event loop and the provider did. */
module NarrativeOutcomes {
  import opened Sequences
  import opened NarrativeBatch
  import opened NarrativeBatchSafety
  import opened NarrativeBatchTheorems

  /** The prompt template could not be rendered, or the provider raised what no handler names. */
  predicate IsFailure(event: Event) {
    (event.Begin? && event.renderFails) || (event.Resume? && event.reply.OtherFailure?)
  }

  /** The event ends its coroutine with this outcome. */
  predicate Earns(config: Config, st: State, event: Event, outcome: Outcome) {
    Enabled(st, event) &&
    var slot := st.slots[event.index];
    var cached := slot.task.key in st.cache;
    match outcome
    case CacheHit => event.Begin? && cached
    case SkippedBudget =>
      && event.Begin? && !cached && !event.renderFails
      && st.cap.Dollars? && st.spent + EstimateOf(config, slot.task) > st.cap.amount
    case Generated => event.Resume? && event.reply.Answered? && Accepted(config, event.reply.response)
    case Errored =>
      event.Resume? && (event.reply.ProviderFailed?
                        || (slot.phase.RetryCall? && event.reply.Answered? && !Accepted(config, event.reply.response)))
    case Crashed => IsFailure(event) && (event.Begin? ==> !cached)
  }

  /** How many events of the schedule end their coroutine with this outcome. */
  function Earned(config: Config, st0: State, schedule: seq<Event>, outcome: Outcome): nat {
    if schedule == [] then 0
    else
      var before, event := schedule[..|schedule| - 1], schedule[|schedule| - 1];
      Earned(config, st0, before, outcome) + if Earns(config, Replay(config, st0, before), event, outcome) then 1 else 0
  }

  lemma StepEarns(config: Config, st: State, event: Event, outcome: Outcome)
    requires Enabled(st, event)
    ensures NextPhase(config, st, event) == Finished(outcome) <==> Earns(config, st, event, outcome)
  {
  }

  lemma StepCounts(config: Config, st: State, event: Event, outcome: Outcome)
    ensures Count(Step(config, st, event).slots, EndedAs(outcome))
            == Count(st.slots, EndedAs(outcome)) + if Earns(config, st, event, outcome) then 1 else 0
  {
    if Enabled(st, event) {
      StepMoves(config, st, event);
      StepEarns(config, st, event, outcome);
      CountUpdate(st.slots, event.index, Slot(st.slots[event.index].task, NextPhase(config, st, event)),
                  EndedAs(outcome));
    }
  }

  /** Every outcome comes from an event that earns it: as many coroutines end in it as events earn it. */
  lemma {:induction false} OutcomesAreEarned(config: Config, st0: State, schedule: seq<Event>, outcome: Outcome)
    requires Initial(config, st0)
    ensures Count(Replay(config, st0, schedule).slots, EndedAs(outcome)) == Earned(config, st0, schedule, outcome)
  {
    if schedule == [] {
      NoneInPhase(st0.slots);
    } else {
      OutcomesAreEarned(config, st0, schedule[..|schedule| - 1], outcome);
      StepCounts(config, Replay(config, st0, schedule[..|schedule| - 1]), schedule[|schedule| - 1], outcome);
    }
  }

  lemma EarnedSnoc(config: Config, st0: State, before: seq<Event>, event: Event, outcome: Outcome)
    ensures Earned(config, st0, before + [event], outcome)
            == Earned(config, st0, before, outcome)
               + if Earns(config, Replay(config, st0, before), event, outcome) then 1 else 0
  {
    assert (before + [event])[..|before|] == before;
  }

  lemma EarnedAtLeast(config: Config, st0: State, front: seq<Event>, last: Event, whole: seq<Event>,
                      outcome: Outcome)
    requires whole == front + [last]
    ensures Earned(config, st0, front, outcome) <= Earned(config, st0, whole, outcome)
  {
    EarnedSnoc(config, st0, front, last, outcome);
  }

  lemma {:induction false} EarnedGrows(config: Config, st0: State, before: seq<Event>, after: seq<Event>,
                                       outcome: Outcome)
    ensures Earned(config, st0, before, outcome) <= Earned(config, st0, before + after, outcome)
  {
    if after == [] {
      assert before + after == before;
    } else {
      var front, last := after[..|after| - 1], after[|after| - 1];
      EarnedGrows(config, st0, before, front, outcome);
      EarnedAtLeast(config, st0, before + front, last, before + after, outcome);
    }
  }

  lemma {:induction false} EarnedNone(config: Config, st0: State, schedule: seq<Event>, outcome: Outcome)
    requires forall st, event | event in schedule :: !Earns(config, st, event, outcome)
    ensures Earned(config, st0, schedule, outcome) == 0
  {
    if schedule == [] {
    } else {
      EarnedNone(config, st0, schedule[..|schedule| - 1], outcome);
    }
  }

  /** Without a failed rendering or an exception that no handler names, the batch returns, and hits, narratives,
      skips and errors cover every finding once: provider errors are counted, never raised. */
  lemma {:induction false} HandledBatchAddsUp(config: Config, st0: State, schedule: seq<Event>)
    requires Initial(config, st0) && forall event | event in schedule :: !IsFailure(event)
    ensures Count(Replay(config, st0, schedule).slots, EndedAs(Crashed)) == 0
    ensures AllFinished(Replay(config, st0, schedule)) ==>
              var tally := Replay(config, st0, schedule).tally;
              tally.cacheHits + tally.generated + tally.skippedBudget + tally.errored == |st0.slots|
  {
    OutcomesAreEarned(config, st0, schedule, Crashed);
    EarnedNone(config, st0, schedule, Crashed);
    if AllFinished(Replay(config, st0, schedule)) {
      FinishedBatchAddsUp(config, st0, schedule);
    }
  }

  /** A failure raises wherever it is not preceded by a cache hit, whatever came before and follows. */
  lemma {:induction false} FailuresRaise(config: Config, st0: State, before: seq<Event>, event: Event,
                                         after: seq<Event>, mid: State)
    requires Initial(config, st0) && mid == Replay(config, st0, before)
    requires IsFailure(event) && Enabled(mid, event)
    requires event.Begin? ==> mid.slots[event.index].task.key !in mid.cache
    ensures Count(Replay(config, st0, before + [event] + after).slots, EndedAs(Crashed)) > 0
  {
    EarnedSnoc(config, st0, before, event, Crashed);
    EarnedGrows(config, st0, before + [event], after, Crashed);
    OutcomesAreEarned(config, st0, before + [event] + after, Crashed);
  }

  /** The counters of a batch count exactly the events that earn them. */
  lemma CountersAreEarned(config: Config, st0: State, schedule: seq<Event>)
    requires Initial(config, st0)
    ensures var tally := Replay(config, st0, schedule).tally;
            && tally.cacheHits == Earned(config, st0, schedule, CacheHit)
            && tally.generated == Earned(config, st0, schedule, Generated)
            && tally.skippedBudget == Earned(config, st0, schedule, SkippedBudget)
            && tally.errored == Earned(config, st0, schedule, Errored)
  {
    InitialIsSound(config, st0);
    EveryScheduleIsSound(config, st0, schedule);
    OutcomesAreEarned(config, st0, schedule, CacheHit);
    OutcomesAreEarned(config, st0, schedule, Generated);
    OutcomesAreEarned(config, st0, schedule, SkippedBudget);
    OutcomesAreEarned(config, st0, schedule, Errored);
  }
}
