/** Accounting, progress, spend and deduplication over every schedule of the narrative batch. */
module NarrativeBatchTheorems {
  import opened Sequences
  import opened NarrativeContent
  import opened NarrativeCache
  import opened NarrativeBatch
  import opened NarrativeBatchSafety

  // ---------------------------------------------------------------- accounting

  lemma {:induction false} FinishedSlotsAddUp(slots: seq<Slot>)
    requires forall i | 0 <= i < |slots| :: slots[i].phase.Finished?
    ensures Count(slots, HoldsPermit) == 0
    ensures Count(slots, EndedAs(CacheHit)) + Count(slots, EndedAs(Generated))
            + Count(slots, EndedAs(SkippedBudget)) + Count(slots, EndedAs(Errored))
            + Count(slots, EndedAs(Crashed)) == |slots|
    ensures SumInt(slots, LeastCalls) == Count(slots, EndedAs(Generated)) + Count(slots, EndedAs(Errored))
    ensures SumInt(slots, MostCalls)
            == 2 * (Count(slots, EndedAs(Generated)) + Count(slots, EndedAs(Errored)) + Count(slots, EndedAs(Crashed)))
  {
    if slots == [] {
    } else {
      FinishedSlotsAddUp(slots[..|slots| - 1]);
      match slots[|slots| - 1].phase.outcome {
        case CacheHit =>
        case Generated =>
        case SkippedBudget =>
        case Errored =>
        case Crashed =>
      }
    }
  }

  /** A finished batch has returned every permit, and its counters cover every finding that did not
      end in an exception the batch does not catch. */
  lemma FinishedBatchAddsUp(config: Config, st0: State, schedule: seq<Event>)
    requires Initial(config, st0)
    requires AllFinished(Replay(config, st0, schedule))
    ensures var st := Replay(config, st0, schedule);
            var crashed := Count(st.slots, EndedAs(Crashed));
            && st.permits == config.concurrency
            && st.tally.cacheHits + st.tally.generated + st.tally.skippedBudget + st.tally.errored + crashed
               == |st0.slots|
            && st.tally.generated + st.tally.errored <= st.calls
            && st.calls <= 2 * (st.tally.generated + st.tally.errored + crashed)
            && st.skipped == st0.skipped + st.tally.skippedBudget
            && |st.stored| == st.tally.generated
  {
    InitialIsSound(config, st0);
    EveryScheduleIsSound(config, st0, schedule);
    FinishedSlotsAddUp(Replay(config, st0, schedule).slots);
  }

  /** Every stored row was accepted, and its text, model and token counts come from one reply to the
      task that stored it; recorded spend is exactly the priced tokens of the stored rows. */
  lemma {:induction false} StoredRowsAreTraceable(config: Config, st0: State, schedule: seq<Event>)
    requires Initial(config, st0)
    ensures var st := Replay(config, st0, schedule);
            && (forall k | 0 <= k < |st.stored| :: Backed(config, st, st.stored[k]))
            && (forall k, l | 0 <= k < l < |st.stored| :: st.stored[k].index != st.stored[l].index)
            && st.spent == st0.spent + SumReal(st.stored, StoredCost(config))
  {
    InitialIsSound(config, st0);
    EveryScheduleIsSound(config, st0, schedule);
  }

  /** The row is about this finding, as this generator was asked for it, and holds this accepted reply to it. */
  predicate RowAbout(sha: string -> string, config: Config, finding: Finding, reply: Served, row: CachedNarrative) {
    && row.cacheKey == ComputeCacheKey(sha, finding.ruleId, finding.evidence, config.promptVersion, config.model)
    && row.ruleId == finding.ruleId && row.evidenceHash == sha(finding.evidence)
    && row.promptVersion == config.promptVersion
    && Accepted(config, reply.response)
    && row.markdown == reply.response.content
    && row.provider == reply.response.provider && row.model == reply.response.model
    && row.inputTokens == reply.response.inputTokens && row.outputTokens == reply.response.outputTokens
    && row.latencyMs == reply.response.latencyMs && row.generatedAt == row.lastUsedAt == reply.at && row.useCount == 1
  }

  /** Every row a batch stores is about one of its findings and holds a reply to that finding's own coroutine. */
  lemma {:induction false} StoredRowsSpeakForFindings(sha: string -> string, config: Config, findings: seq<Finding>,
                                                      st0: State, schedule: seq<Event>, k: nat)
    requires Initial(config, st0) && |st0.slots| == |findings|
    requires forall i | 0 <= i < |findings| :: st0.slots[i].task == TaskFor(sha, config)(findings[i])
    requires k < |Replay(config, st0, schedule).stored|
    ensures var st := Replay(config, st0, schedule);
            st.stored[k].index < |findings|
            && exists j :: 0 <= j < |st.served| && st.served[j].index == st.stored[k].index
                           && RowAbout(sha, config, findings[st.stored[k].index], st.served[j], st.stored[k].row)
  {
    var st := Replay(config, st0, schedule);
    InitialIsSound(config, st0);
    EveryScheduleIsSound(config, st0, schedule);
    assert Backed(config, st, st.stored[k]);
    var j :| WrittenFrom(config, st, st.stored[k], j);
    assert st.slots[st.stored[k].index].task == st0.slots[st.stored[k].index].task;
    assert RowAbout(sha, config, findings[st.stored[k].index], st.served[j], st.stored[k].row);
  }

  /** A cache row present after any schedule is an original narrative or an accepted one for its key. */
  lemma {:induction false} CacheRowsAreTraceable(config: Config, st0: State, schedule: seq<Event>, key: string)
    requires Initial(config, st0)
    requires key in Replay(config, st0, schedule).cache
    ensures var row := Replay(config, st0, schedule).cache[key];
            || (key in st0.cache && SameNarrative(row, st0.cache[key]))
            || (row.cacheKey == key && ValidateStructure(row.markdown, config.wordChars) == None)
  {
    var st := Replay(config, st0, schedule);
    InitialIsSound(config, st0);
    EveryScheduleIsSound(config, st0, schedule);
    if !FromStart(st0, st, key) {
      var k :| FromStored(st, key, k);
      assert Backed(config, st, st.stored[k]);
    }
  }

  // ---------------------------------------------------------------- progress

  /** With a permit to hand out, an unfinished batch always has a step to take. */
  lemma NeverStuck(config: Config, st: State) returns (event: Event)
    requires Accounted(config, st) && config.concurrency > 0
    requires !AllFinished(st)
    ensures Enabled(st, event)
  {
    var i :| 0 <= i < |st.slots| && !st.slots[i].phase.Finished?;
    if st.slots[i].phase.Waiting? && st.permits == 0 {
      CountPositive(st.slots, HoldsPermit);
      i :| 0 <= i < |st.slots| && HoldsPermit(st.slots[i]);
    }
    event := match st.slots[i].phase
             case Waiting => Admit(i)
             case Admitted => Begin(i, 0, false)
             case _ => Resume(i, 0, ProviderFailed);
  }

  function StepsLeft(slot: Slot): int {
    match slot.phase
    case Waiting => 4
    case Admitted => 3
    case FirstCall => 2
    case RetryCall => 1
    case Finished(_) => 0
  }

  lemma StepsLeftDrop(config: Config, st: State, event: Event)
    requires Enabled(st, event)
    ensures SumInt(Step(config, st, event).slots, StepsLeft) < SumInt(st.slots, StepsLeft)
  {
    StepMoves(config, st, event);
    SumIntUpdate(st.slots, event.index,
                 Slot(st.slots[event.index].task, NextPhase(config, st, event)), StepsLeft);
  }

  lemma {:induction false} StepsLeftRange(slots: seq<Slot>)
    ensures 0 <= SumInt(slots, StepsLeft) <= 4 * |slots|
  {
    if slots == [] {
    } else {
      StepsLeftRange(slots[..|slots| - 1]);
    }
  }

  /** Every event of the schedule was enabled when it came. */
  ghost predicate AllEffective(config: Config, st: State, schedule: seq<Event>) {
    forall k | 0 <= k < |schedule| :: Enabled(Replay(config, st, schedule[..k]), schedule[k])
  }

  lemma {:induction false} EffectiveSchedulesAreShort(config: Config, st: State, schedule: seq<Event>)
    requires AllEffective(config, st, schedule)
    ensures |schedule| + SumInt(Replay(config, st, schedule).slots, StepsLeft) <= SumInt(st.slots, StepsLeft)
  {
    if schedule == [] {
    } else {
      var n := |schedule| - 1;
      forall k | 0 <= k < n
        ensures Enabled(Replay(config, st, schedule[..n][..k]), schedule[..n][k])
      {
        assert schedule[..n][..k] == schedule[..k];
        assert Enabled(Replay(config, st, schedule[..k]), schedule[k]);
      }
      EffectiveSchedulesAreShort(config, st, schedule[..n]);
      assert Enabled(Replay(config, st, schedule[..n]), schedule[n]);
      StepsLeftDrop(config, Replay(config, st, schedule[..n]), schedule[n]);
    }
  }

  /** The batch terminates: no schedule takes more than four effective steps per finding, and one
      that cannot be extended has finished every task. */
  lemma {:induction false} BatchTerminates(config: Config, st0: State, schedule: seq<Event>)
    requires Initial(config, st0) && config.concurrency > 0
    requires AllEffective(config, st0, schedule)
    ensures |schedule| <= 4 * |st0.slots|
    ensures (exists event :: Enabled(Replay(config, st0, schedule), event))
            || AllFinished(Replay(config, st0, schedule))
  {
    var st := Replay(config, st0, schedule);
    InitialIsSound(config, st0);
    EveryScheduleIsSound(config, st0, schedule);
    EffectiveSchedulesAreShort(config, st0, schedule);
    StepsLeftRange(st0.slots);
    StepsLeftRange(st.slots);
    if !AllFinished(st) {
      var event := NeverStuck(config, st);
    }
  }

  // ---------------------------------------------------------------- spend

  /** What in-flight tasks may still add to the spend, `f` bounding each task's recorded cost. */
  function Reserve(f: Task -> real): Slot -> real {
    (slot: Slot) => if InFlight(slot) then f(slot.task) else 0.0
  }

  /** Every narrative the schedule records costs its task at most `f`. */
  ghost predicate CostsWithin(config: Config, st: State, schedule: seq<Event>, f: Task -> real) {
    forall k | 0 <= k < |schedule| :: CostWithin(config, st, schedule[k], f)
  }

  ghost predicate CostWithin(config: Config, st: State, event: Event, f: Task -> real) {
    event.index < |st.slots| && event.Resume? && event.reply.Answered? && Accepted(config, event.reply.response) ==>
      CostOf(config, event.reply.response) <= f(st.slots[event.index].task)
  }

  lemma {:induction false} ReserveAtMost(slots: seq<Slot>, f: Task -> real, a: real)
    requires forall i | 0 <= i < |slots| :: f(slots[i].task) <= a
    ensures SumReal(slots, Reserve(f)) <= Times(Count(slots, InFlight), a)
  {
    if slots == [] {
    } else {
      ReserveAtMost(slots[..|slots| - 1], f, a);
      assert f(slots[|slots| - 1].task) <= a;
    }
  }

  ghost predicate Costed(config: Config, st: State, f: Task -> real, a: real, d: real) {
    forall i | 0 <= i < |st.slots| ::
      0.0 <= f(st.slots[i].task) <= a && f(st.slots[i].task) <= EstimateOf(config, st.slots[i].task) + d
  }

  /** A recorded cost is that of the event's own reply. */
  lemma RecordedCost(config: Config, st: State, event: Event, f: Task -> real)
    requires Enabled(st, event) && CostWithin(config, st, event, f)
    requires NextPhase(config, st, event) == Finished(Generated)
    ensures Step(config, st, event).spent <= st.spent + f(st.slots[event.index].task)
  {
  }

  lemma MoveKeepsCeiling(config: Config, st: State, next: State, i: nat, after: Phase, f: Task -> real, a: real,
                         d: real, top: real)
    requires Accounted(config, st) && st.cap.Dollars? && a >= 0.0
    requires Moves(config, st, next, i, after) && Costed(config, st, f, a, d)
    requires after == Finished(Generated) ==> next.spent <= st.spent + f(st.slots[i].task)
    requires config.concurrency > 0 ==> top >= st.cap.amount + Times(config.concurrency - 1, a) + d
    requires st.spent + SumReal(st.slots, Reserve(f)) <= top
    ensures next.spent + SumReal(next.slots, Reserve(f)) <= top
  {
    SumRealUpdate(st.slots, i, Slot(st.slots[i].task, after), Reserve(f));
    if after.FirstCall? {
      OthersReserve(config, st, i, f, a);
    }
  }

  lemma StepKeepsCeiling(config: Config, st: State, event: Event, f: Task -> real, a: real, d: real, top: real)
    requires Accounted(config, st) && st.cap.Dollars? && a >= 0.0
    requires Costed(config, st, f, a, d) && CostWithin(config, st, event, f)
    requires config.concurrency > 0 ==> top >= st.cap.amount + Times(config.concurrency - 1, a) + d
    requires st.spent + SumReal(st.slots, Reserve(f)) <= top
    ensures Step(config, st, event).spent + SumReal(Step(config, st, event).slots, Reserve(f)) <= top
  {
    if Enabled(st, event) {
      StepMoves(config, st, event);
      var after := NextPhase(config, st, event);
      if after == Finished(Generated) {
        RecordedCost(config, st, event, f);
      }
      MoveKeepsCeiling(config, st, Step(config, st, event), event.index, after, f, a, d, top);
    }
  }

  /** Beside an admitted task, only the other permits can have calls in flight. */
  lemma OthersReserve(config: Config, st: State, i: nat, f: Task -> real, a: real)
    requires Accounted(config, st) && a >= 0.0
    requires i < |st.slots| && st.slots[i].phase.Admitted?
    requires forall j | 0 <= j < |st.slots| :: f(st.slots[j].task) <= a
    ensures config.concurrency > 0 && SumReal(st.slots, Reserve(f)) <= Times(config.concurrency - 1, a)
  {
    var parked := Slot(st.slots[i].task, Waiting);
    var others := st.slots[i := parked];
    CountUpdate(st.slots, i, parked, HoldsPermit);
    CountImplied(others, InFlight, HoldsPermit);
    SumRealUpdate(st.slots, i, parked, Reserve(f));
    ReserveAtMost(others, f, a);
    TimesGrows(Count(others, InFlight), config.concurrency - 1, a);
  }

  lemma CostedAfter(config: Config, st0: State, st: State, f: Task -> real, a: real, d: real)
    requires SameBatch(st0, st) && Costed(config, st0, f, a, d)
    ensures Costed(config, st, f, a, d)
  {
  }

  /** Spend plus what is in flight never passes the ceiling, on any schedule. */
  lemma {:induction false} SpendStaysUnderCeiling(config: Config, st0: State, schedule: seq<Event>,
                                                  f: Task -> real, a: real, d: real, top: real)
    requires Sound(config, st0, st0) && st0.cap.Dollars? && a >= 0.0
    requires Costed(config, st0, f, a, d) && CostsWithin(config, st0, schedule, f)
    requires config.concurrency > 0 ==> top >= st0.cap.amount + Times(config.concurrency - 1, a) + d
    requires st0.spent + SumReal(st0.slots, Reserve(f)) <= top
    ensures var st := Replay(config, st0, schedule); st.spent + SumReal(st.slots, Reserve(f)) <= top
  {
    if schedule == [] {
    } else {
      var before, event := schedule[..|schedule| - 1], schedule[|schedule| - 1];
      forall k | 0 <= k < |before|
        ensures CostWithin(config, st0, before[k], f)
      {
        assert CostWithin(config, st0, schedule[k], f);
      }
      SpendStaysUnderCeiling(config, st0, before, f, a, d, top);
      EveryScheduleIsSound(config, st0, before);
      var st := Replay(config, st0, before);
      CostedAfter(config, st0, st, f, a, d);
      assert CostWithin(config, st0, event, f);
      assert CostWithin(config, st, event, f);
      StepKeepsCeiling(config, st, event, f, a, d, top);
    }
  }

  lemma {:induction false} NothingReserved(slots: seq<Slot>, f: Task -> real)
    requires forall i | 0 <= i < |slots| :: !InFlight(slots[i])
    ensures SumReal(slots, Reserve(f)) == 0.0
  {
    if slots == [] {
    } else {
      NothingReserved(slots[..|slots| - 1], f);
    }
  }

  lemma {:induction false} ConstantReserve(slots: seq<Slot>, a: real)
    ensures SumReal(slots, Reserve(Constantly(a))) == Times(Count(slots, InFlight), a)
  {
    if slots == [] {
    } else {
      ConstantReserve(slots[..|slots| - 1], a);
    }
  }

  function Constantly(a: real): Task -> real { (task: Task) => a }

  lemma ConstantCosted(config: Config, st0: State, a: real)
    requires a >= 0.0
    ensures Costed(config, st0, Constantly(a), a, a)
  {
    forall i | 0 <= i < |st0.slots|
      ensures a <= EstimateOf(config, st0.slots[i].task) + a
    {
    }
  }

  lemma EstimateCosted(config: Config, st0: State, a: real)
    requires forall i | 0 <= i < |st0.slots| :: EstimateOf(config, st0.slots[i].task) <= a
    ensures Costed(config, st0, Estimates(config), a, 0.0)
  {
  }

  lemma NothingReservedInitially(config: Config, st0: State, f: Task -> real)
    requires Initial(config, st0)
    ensures SumReal(st0.slots, Reserve(f)) == 0.0
  {
    NothingReserved(st0.slots, f);
  }

  /** If no recorded narrative costs more than `a`, spend plus `a` per call in flight stays within one
      `a` per permit of the cap, or where it was at the start. */
  lemma BudgetBound(config: Config, st0: State, schedule: seq<Event>, end: State, a: real)
    requires Initial(config, st0) && st0.cap.Dollars?
    requires a >= 0.0 && CostsWithin(config, st0, schedule, Constantly(a))
    requires end == Replay(config, st0, schedule)
    ensures end.spent + Times(Count(end.slots, InFlight), a)
            <= MaxReal(st0.spent, st0.cap.amount + Times(config.concurrency, a))
  {
    ReservedBudgetBound(config, st0, schedule, a);
    ConstantReserve(end.slots, a);
  }

  lemma ReservedBudgetBound(config: Config, st0: State, schedule: seq<Event>, a: real)
    requires Initial(config, st0) && st0.cap.Dollars?
    requires a >= 0.0 && CostsWithin(config, st0, schedule, Constantly(a))
    ensures var st := Replay(config, st0, schedule);
            st.spent + SumReal(st.slots, Reserve(Constantly(a)))
            <= MaxReal(st0.spent, st0.cap.amount + Times(config.concurrency, a))
  {
    InitialIsSound(config, st0);
    NothingReservedInitially(config, st0, Constantly(a));
    ConstantCosted(config, st0, a);
    SpendStaysUnderCeiling(config, st0, schedule, Constantly(a), a, a,
                           MaxReal(st0.spent, st0.cap.amount + Times(config.concurrency, a)));
  }

  /** The estimate a task was admitted at. */
  function Estimates(config: Config): Task -> real {
    (task: Task) => EstimateOf(config, task)
  }

  /** If every recorded narrative costs at most its own estimate and no estimate passes `a`, the spend
      passes the cap by at most `a` for every permit but one, or stays where it was at the start. */
  lemma HonestSpendBound(config: Config, st0: State, schedule: seq<Event>, end: State, a: real)
    requires Initial(config, st0) && st0.cap.Dollars?
    requires config.concurrency > 0 && a >= 0.0
    requires forall i | 0 <= i < |st0.slots| :: EstimateOf(config, st0.slots[i].task) <= a
    requires CostsWithin(config, st0, schedule, Estimates(config))
    requires end == Replay(config, st0, schedule)
    ensures end.spent <= MaxReal(st0.spent, st0.cap.amount + Times(config.concurrency - 1, a))
    ensures config.concurrency == 1 ==> end.spent <= MaxReal(st0.spent, st0.cap.amount)
  {
    ReservedHonestBound(config, st0, schedule, a,
                        MaxReal(st0.spent, st0.cap.amount + Times(config.concurrency - 1, a)));
    ReserveNonNegative(end.slots, Estimates(config));
  }

  lemma ReservedHonestBound(config: Config, st0: State, schedule: seq<Event>, a: real, top: real)
    requires Initial(config, st0) && st0.cap.Dollars? && a >= 0.0
    requires config.concurrency > 0 ==> top >= st0.cap.amount + Times(config.concurrency - 1, a)
    requires forall i | 0 <= i < |st0.slots| :: EstimateOf(config, st0.slots[i].task) <= a
    requires CostsWithin(config, st0, schedule, Estimates(config)) && st0.spent <= top
    ensures var st := Replay(config, st0, schedule); st.spent + SumReal(st.slots, Reserve(Estimates(config))) <= top
  {
    InitialIsSound(config, st0);
    NothingReservedInitially(config, st0, Estimates(config));
    EstimateCosted(config, st0, a);
    SpendStaysUnderCeiling(config, st0, schedule, Estimates(config), a, 0.0, top);
  }

  lemma {:induction false} ReserveNonNegative(slots: seq<Slot>, f: Task -> real)
    requires forall i | 0 <= i < |slots| :: f(slots[i].task) >= 0.0
    ensures SumReal(slots, Reserve(f)) >= 0.0
  {
    if slots == [] {
    } else {
      ReserveNonNegative(slots[..|slots| - 1], f);
      assert f(slots[|slots| - 1].task) >= 0.0;
    }
  }
}
