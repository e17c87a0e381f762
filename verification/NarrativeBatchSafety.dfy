/** What every schedule of the narrative batch keeps. */
module NarrativeBatchSafety {
  import opened Sequences
  import opened NarrativeContent
  import opened NarrativeCache
  import opened NarrativeBatch

  /** The phase an enabled event leads its task into. */
  function NextPhase(config: Config, st: State, event: Event): Phase
    requires Enabled(st, event)
  {
    Step(config, st, event).slots[event.index].phase
  }

  /** Nothing about the batch moved but the phase of one task, its permit and the counters. */
  predicate SameBooks(st: State, next: State) {
    && next.cap == st.cap && next.spent == st.spent && next.stored == st.stored
    && next.cache.Keys == st.cache.Keys
    && st.served <= next.served
  }

  /** The row holds the reply and its moment, under the key of the task. */
  predicate RowSays(config: Config, task: Task, reply: Served, row: CachedNarrative) {
    && row.cacheKey == task.key && row.ruleId == task.ruleId && row.evidenceHash == task.evidenceHash
    && row.promptVersion == config.promptVersion
    && row.provider == reply.response.provider && row.model == reply.response.model
    && row.markdown == reply.response.content
    && row.inputTokens == reply.response.inputTokens && row.outputTokens == reply.response.outputTokens
    && row.latencyMs == reply.response.latencyMs
    && row.generatedAt == reply.at && row.lastUsedAt == reply.at && row.useCount == 1
  }

  /** Task `i` went to phase `after`: what must have been so before, and what is so now. */
  predicate Moves(config: Config, st: State, next: State, i: nat, after: Phase) {
    && i < |st.slots|
    && next.slots == st.slots[i := Slot(st.slots[i].task, after)]
    && var task, before := st.slots[i].task, st.slots[i].phase;
       match after
       case Waiting => false
       case Admitted =>
         && before.Waiting? && st.permits > 0 && next.permits == st.permits - 1
         && next.tally == st.tally && next.calls == st.calls && next.skipped == st.skipped && SameBooks(st, next)
       case FirstCall =>
         && before.Admitted? && next.permits == st.permits
         && next.tally == st.tally && next.calls == st.calls + 1 && next.skipped == st.skipped && SameBooks(st, next)
         && task.key !in st.cache && !WouldExceed(st.cap, st.spent, EstimateOf(config, task))
       case RetryCall =>
         && before.FirstCall? && next.permits == st.permits
         && next.tally == st.tally && next.calls == st.calls + 1 && next.skipped == st.skipped && SameBooks(st, next)
       case Finished(outcome) =>
         && next.permits == st.permits + 1 && next.tally == Bump(st.tally, outcome) && next.calls == st.calls
         && next.skipped == st.skipped + (if outcome.SkippedBudget? then 1 else 0)
         && match outcome
            case CacheHit => before.Admitted? && SameBooks(st, next)
            case SkippedBudget => before.Admitted? && SameBooks(st, next)
            case Errored => (before.FirstCall? || before.RetryCall?) && SameBooks(st, next)
            case Crashed => !before.Waiting? && !before.Finished? && SameBooks(st, next)
            case Generated => (before.FirstCall? || before.RetryCall?) && Records(config, st, next, i)
  }

  /** Task `i` wrote a narrative: from the newest reply, which was its own and was accepted. */
  predicate Records(config: Config, st: State, next: State, i: nat)
    requires i < |st.slots|
  {
    && next.cap == st.cap
    && |next.served| == |st.served| + 1 && st.served <= next.served
    && var reply := next.served[|st.served|];
       && reply.index == i && Accepted(config, reply.response)
       && next.spent == st.spent + CostOf(config, reply.response)
       && |next.stored| == |st.stored| + 1 && st.stored <= next.stored
       && var entry := next.stored[|st.stored|];
          && entry.index == i
          && RowSays(config, st.slots[i].task, reply, entry.row)
          && next.cache == st.cache[entry.row.cacheKey := entry.row]
  }

  lemma BeginMoves(config: Config, st: State, i: nat, now: int, renderFails: bool)
    requires i < |st.slots| && st.slots[i].phase.Admitted?
    ensures var next := BeginStep(config, st, i, now, renderFails);
            i < |next.slots| && Moves(config, st, next, i, next.slots[i].phase)
  {
  }

  lemma ResumeMoves(config: Config, st: State, i: nat, now: int, reply: Reply)
    requires i < |st.slots| && InFlight(st.slots[i])
    ensures var next := ResumeStep(config, st, i, now, reply);
            i < |next.slots| && Moves(config, st, next, i, next.slots[i].phase)
  {
  }

  /** Every enabled event is such a move, of its own task. */
  lemma StepMoves(config: Config, st: State, event: Event)
    requires Enabled(st, event)
    ensures Moves(config, st, Step(config, st, event), event.index, NextPhase(config, st, event))
  {
    match event {
      case Admit(i) =>
      case Begin(i, now, renderFails) => BeginMoves(config, st, i, now, renderFails);
      case Resume(i, now, reply) => ResumeMoves(config, st, i, now, reply);
    }
  }

  // ---------------------------------------------------------------- semaphore and counters

  ghost predicate Accounted(config: Config, st: State) {
    && 0 <= st.permits
    && st.permits + Count(st.slots, HoldsPermit) == config.concurrency
    && st.tally.cacheHits == Count(st.slots, EndedAs(CacheHit))
    && st.tally.generated == Count(st.slots, EndedAs(Generated))
    && st.tally.skippedBudget == Count(st.slots, EndedAs(SkippedBudget))
    && st.tally.errored == Count(st.slots, EndedAs(Errored))
    && |st.stored| == st.tally.generated
  }

  lemma MoveAccounted(config: Config, st: State, next: State, i: nat, after: Phase)
    requires Accounted(config, st) && Moves(config, st, next, i, after)
    ensures Accounted(config, next)
  {
    var slot := Slot(st.slots[i].task, after);
    CountUpdate(st.slots, i, slot, HoldsPermit);
    CountUpdate(st.slots, i, slot, EndedAs(CacheHit));
    CountUpdate(st.slots, i, slot, EndedAs(Generated));
    CountUpdate(st.slots, i, slot, EndedAs(SkippedBudget));
    CountUpdate(st.slots, i, slot, EndedAs(Errored));
  }

  /** Fewest and most provider calls a task in this phase can have made. */
  function LeastCalls(slot: Slot): int {
    match slot.phase
    case FirstCall => 1
    case RetryCall => 2
    case Finished(outcome) => if outcome.Generated? || outcome.Errored? then 1 else 0
    case _ => 0
  }

  function MostCalls(slot: Slot): int {
    match slot.phase
    case FirstCall => 1
    case RetryCall => 2
    case Finished(outcome) => if outcome.Generated? || outcome.Errored? || outcome.Crashed? then 2 else 0
    case _ => 0
  }

  ghost predicate CallsBounded(st: State) {
    SumInt(st.slots, LeastCalls) <= st.calls <= SumInt(st.slots, MostCalls)
  }

  lemma MoveCallsBounded(config: Config, st: State, next: State, i: nat, after: Phase)
    requires CallsBounded(st) && Moves(config, st, next, i, after)
    ensures CallsBounded(next)
  {
    var slot := Slot(st.slots[i].task, after);
    SumIntUpdate(st.slots, i, slot, LeastCalls);
    SumIntUpdate(st.slots, i, slot, MostCalls);
  }

  /** Tasks and cap never change, and the budget counts the same skips as the batch. */
  ghost predicate SameBatch(st0: State, st: State) {
    && st.cap == st0.cap
    && st.skipped - st.tally.skippedBudget == st0.skipped - st0.tally.skippedBudget
    && |st.slots| == |st0.slots|
    && forall i | 0 <= i < |st.slots| :: st.slots[i].task == st0.slots[i].task
  }

  // ---------------------------------------------------------------- provenance and spend

  predicate SameNarrative(a: CachedNarrative, b: CachedNarrative) {
    a == b.(lastUsedAt := a.lastUsedAt, useCount := a.useCount)
  }

  /** Row `entry` was written by the coroutine that received reply `j`, from that reply alone. */
  ghost predicate WrittenFrom(config: Config, st: State, entry: Stored, j: int) {
    && 0 <= j < |st.served| && entry.index < |st.slots|
    && st.served[j].index == entry.index
    && Accepted(config, st.served[j].response)
    && RowSays(config, st.slots[entry.index].task, st.served[j], entry.row)
  }

  ghost predicate Backed(config: Config, st: State, entry: Stored) {
    && entry.index < |st.slots|
    && st.slots[entry.index].phase == Finished(Generated)
    && exists j :: WrittenFrom(config, st, entry, j)
  }

  ghost predicate FromStart(st0: State, st: State, key: string)
    requires key in st.cache
  {
    key in st0.cache && SameNarrative(st.cache[key], st0.cache[key])
  }

  ghost predicate FromStored(st: State, key: string, k: int)
    requires key in st.cache
  {
    0 <= k < |st.stored| && st.stored[k].row.cacheKey == key && SameNarrative(st.cache[key], st.stored[k].row)
  }

  function StoredCost(config: Config): Stored -> real {
    (entry: Stored) => EstimateCostUsd(config.model, entry.row.inputTokens, entry.row.outputTokens)
  }

  ghost predicate Traceable(config: Config, st0: State, st: State) {
    && (forall k | 0 <= k < |st.stored| :: Backed(config, st, st.stored[k]))
    && (forall k, l | 0 <= k < l < |st.stored| :: st.stored[k].index != st.stored[l].index)
    && (forall key | key in st.cache :: FromStart(st0, st, key) || exists k :: FromStored(st, key, k))
    && st.spent == st0.spent + SumReal(st.stored, StoredCost(config))
  }

  lemma BackedAfter(config: Config, st: State, next: State, i: nat, after: Phase, entry: Stored)
    requires Backed(config, st, entry) && Moves(config, st, next, i, after)
    ensures Backed(config, next, entry)
  {
    assert entry.index != i;
    var j :| WrittenFrom(config, st, entry, j);
    assert next.served[j] == st.served[j];
    assert WrittenFrom(config, next, entry, j);
  }

  /** The narratives in the cache stay as they are unless a task records one. */
  ghost predicate SameNarratives(st: State, next: State) {
    forall key | key in st.cache :: key in next.cache && SameNarrative(next.cache[key], st.cache[key])
  }

  lemma OtherStepsKeepNarratives(config: Config, st: State, event: Event)
    requires Enabled(st, event) && NextPhase(config, st, event) != Finished(Generated)
    ensures SameNarratives(st, Step(config, st, event))
  {
  }

  lemma OriginAfterQuietStep(st0: State, st: State, next: State, key: string)
    requires key in st.cache && key in next.cache && next.stored == st.stored
    requires SameNarrative(next.cache[key], st.cache[key])
    requires FromStart(st0, st, key) || exists k :: FromStored(st, key, k)
    ensures FromStart(st0, next, key) || exists k :: FromStored(next, key, k)
  {
    if !FromStart(st0, st, key) {
      var k :| FromStored(st, key, k);
      assert FromStored(next, key, k);
    }
  }

  lemma QuietTraceable(config: Config, st0: State, st: State, next: State, i: nat, after: Phase)
    requires Traceable(config, st0, st) && Moves(config, st, next, i, after)
    requires after != Finished(Generated) && SameNarratives(st, next)
    ensures Traceable(config, st0, next)
  {
    assert SameBooks(st, next);
    forall k | 0 <= k < |st.stored|
      ensures Backed(config, next, st.stored[k])
    {
      BackedAfter(config, st, next, i, after, st.stored[k]);
    }
    forall key | key in next.cache
      ensures FromStart(st0, next, key) || exists k :: FromStored(next, key, k)
    {
      OriginAfterQuietStep(st0, st, next, key);
    }
  }

  lemma OriginAfterRecord(st0: State, st: State, next: State, key: string)
    requires |next.stored| == |st.stored| + 1 && st.stored <= next.stored
    requires var row := next.stored[|st.stored|].row; next.cache == st.cache[row.cacheKey := row]
    requires key in next.cache
    requires key in st.cache ==> FromStart(st0, st, key) || exists k :: FromStored(st, key, k)
    ensures FromStart(st0, next, key) || exists k :: FromStored(next, key, k)
  {
    if key == next.stored[|st.stored|].row.cacheKey {
      assert FromStored(next, key, |st.stored|);
    } else if !FromStart(st0, st, key) {
      var k :| FromStored(st, key, k);
      assert next.stored[k] == st.stored[k];
      assert FromStored(next, key, k);
    }
  }

  lemma SpendAfterRecord(config: Config, st: State, next: State, i: nat)
    requires i < |st.slots| && Records(config, st, next, i)
    ensures SumReal(next.stored, StoredCost(config)) - SumReal(st.stored, StoredCost(config)) == next.spent - st.spent
  {
    assert next.stored[..|st.stored|] == st.stored;
  }

  lemma EntriesAfterRecord(config: Config, st: State, next: State, i: nat)
    requires Moves(config, st, next, i, Finished(Generated))
    requires forall k | 0 <= k < |st.stored| :: Backed(config, st, st.stored[k])
    ensures forall k | 0 <= k < |next.stored| :: Backed(config, next, next.stored[k])
    ensures forall k | 0 <= k < |st.stored| :: next.stored[k] == st.stored[k] && st.stored[k].index != i
  {
    forall k | 0 <= k < |next.stored|
      ensures Backed(config, next, next.stored[k])
      ensures k < |st.stored| ==> next.stored[k] == st.stored[k] && st.stored[k].index != i
    {
      if k < |st.stored| {
        assert Backed(config, st, st.stored[k]);
        BackedAfter(config, st, next, i, Finished(Generated), st.stored[k]);
      } else {
        assert WrittenFrom(config, next, next.stored[k], |st.served|);
      }
    }
  }

  lemma OriginsAfterRecord(config: Config, st0: State, st: State, next: State, i: nat)
    requires Traceable(config, st0, st) && i < |st.slots| && Records(config, st, next, i)
    ensures forall key | key in next.cache :: FromStart(st0, next, key) || exists k :: FromStored(next, key, k)
  {
    forall key | key in next.cache
      ensures FromStart(st0, next, key) || exists k :: FromStored(next, key, k)
    {
      OriginAfterRecord(st0, st, next, key);
    }
  }

  lemma IndicesAfterRecord(st: State, next: State, i: nat)
    requires |next.stored| == |st.stored| + 1 && next.stored[|st.stored|].index == i
    requires forall k | 0 <= k < |st.stored| :: next.stored[k] == st.stored[k] && st.stored[k].index != i
    requires forall k, l | 0 <= k < l < |st.stored| :: st.stored[k].index != st.stored[l].index
    ensures forall k, l | 0 <= k < l < |next.stored| :: next.stored[k].index != next.stored[l].index
  {
  }

  lemma RecordTraceable(config: Config, st0: State, st: State, next: State, i: nat)
    requires Traceable(config, st0, st) && Moves(config, st, next, i, Finished(Generated))
    ensures Traceable(config, st0, next)
  {
    EntriesAfterRecord(config, st, next, i);
    OriginsAfterRecord(config, st0, st, next, i);
    SpendAfterRecord(config, st, next, i);
    IndicesAfterRecord(st, next, i);
  }

  // ---------------------------------------------------------------- all schedules

  ghost predicate Sound(config: Config, st0: State, st: State) {
    Accounted(config, st) && CallsBounded(st) && SameBatch(st0, st) && Traceable(config, st0, st)
  }

  /** Everything above holds in every state any schedule can reach. */
  lemma {:induction false} EveryScheduleIsSound(config: Config, st0: State, schedule: seq<Event>)
    requires Sound(config, st0, st0)
    ensures Sound(config, st0, Replay(config, st0, schedule))
  {
    if schedule == [] {
    } else {
      var before, event := schedule[..|schedule| - 1], schedule[|schedule| - 1];
      EveryScheduleIsSound(config, st0, before);
      StepSound(config, st0, Replay(config, st0, before), event);
    }
  }

  lemma StepTraceable(config: Config, st0: State, st: State, event: Event)
    requires Enabled(st, event) && Traceable(config, st0, st)
    ensures Traceable(config, st0, Step(config, st, event))
  {
    StepMoves(config, st, event);
    if NextPhase(config, st, event) == Finished(Generated) {
      RecordTraceable(config, st0, st, Step(config, st, event), event.index);
    } else {
      OtherStepsKeepNarratives(config, st, event);
      QuietTraceable(config, st0, st, Step(config, st, event), event.index, NextPhase(config, st, event));
    }
  }

  lemma MoveSameBatch(config: Config, st0: State, st: State, next: State, i: nat, after: Phase)
    requires SameBatch(st0, st) && Moves(config, st, next, i, after)
    ensures SameBatch(st0, next)
  {
  }

  lemma StepSound(config: Config, st0: State, st: State, event: Event)
    requires Sound(config, st0, st)
    ensures Sound(config, st0, Step(config, st, event))
  {
    if Enabled(st, event) {
      StepMoves(config, st, event);
      StepTraceable(config, st0, st, event);
      MovedSound(config, st0, st, Step(config, st, event), event.index, NextPhase(config, st, event));
    }
  }

  lemma MovedSound(config: Config, st0: State, st: State, next: State, i: nat, after: Phase)
    requires Sound(config, st0, st) && Moves(config, st, next, i, after) && Traceable(config, st0, next)
    ensures Sound(config, st0, next)
  {
    MoveAccounted(config, st, next, i, after);
    MoveCallsBounded(config, st, next, i, after);
    MoveSameBatch(config, st0, st, next, i, after);
  }

  lemma {:induction false} NoneInPhase(slots: seq<Slot>)
    requires forall i | 0 <= i < |slots| :: slots[i].phase.Waiting?
    ensures Count(slots, HoldsPermit) == 0 && Count(slots, InFlight) == 0
    ensures forall outcome :: Count(slots, EndedAs(outcome)) == 0
    ensures SumInt(slots, LeastCalls) == 0 == SumInt(slots, MostCalls)
  {
    if slots == [] {
    } else {
      NoneInPhase(slots[..|slots| - 1]);
    }
  }

  lemma InitialIsSound(config: Config, st0: State)
    requires Initial(config, st0)
    ensures Sound(config, st0, st0)
  {
    NoneInPhase(st0.slots);
  }
}
