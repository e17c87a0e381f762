/** Batches that run one after another on one budget and one cache, as the budget is cumulative. */
module NarrativeRuns {
  import opened Sequences
  import opened NarrativeBatch
  import opened NarrativeBatchSafety
  import opened NarrativeBatchTheorems
  import opened NarrativeDeduplication

  /** The generator a batch runs on, its findings, and how its event loop ran. */
  datatype Batch = Batch(config: Config, tasks: seq<Task>, schedule: seq<Event>)

  function Unstarted(task: Task): Slot { Slot(task, Waiting) }

  /** A new batch takes over budget, cache and last response; counters and permits are its own. */
  function NextStart(batch: Batch, st: State): State {
    State(batch.config.concurrency, Map(batch.tasks, Unstarted), st.cap, st.spent, st.skipped, st.cache, st.last,
          Tally(0, 0, 0, 0), 0, [], [])
  }

  function RunBatch(batch: Batch, st: State): State {
    Replay(batch.config, NextStart(batch, st), batch.schedule)
  }

  function RunBatches(st0: State, batches: seq<Batch>): State {
    if batches == [] then st0
    else RunBatch(batches[|batches| - 1], RunBatches(st0, batches[..|batches| - 1]))
  }

  lemma NextStartIsInitial(batch: Batch, st: State)
    ensures Initial(batch.config, NextStart(batch, st))
  {
  }

  lemma CapStays(batch: Batch, st: State)
    ensures RunBatch(batch, st).cap == st.cap
  {
    NextStartIsInitial(batch, st);
    InitialIsSound(batch.config, NextStart(batch, st));
    EveryScheduleIsSound(batch.config, NextStart(batch, st), batch.schedule);
  }

  lemma {:induction false} CapStaysThroughout(st0: State, batches: seq<Batch>)
    ensures RunBatches(st0, batches).cap == st0.cap
  {
    if batches == [] {
    } else {
      CapStaysThroughout(st0, batches[..|batches| - 1]);
      CapStays(batches[|batches| - 1], RunBatches(st0, batches[..|batches| - 1]));
    }
  }

  // ---------------------------------------------------------------- spend

  /** At most `c` permits, no estimate above `a`, and no recorded narrative above its own estimate. */
  ghost predicate HonestBatch(batch: Batch, st: State, c: nat, a: real) {
    && batch.config.concurrency <= c
    && (forall task | task in batch.tasks :: EstimateOf(batch.config, task) <= a)
    && CostsWithin(batch.config, NextStart(batch, st), batch.schedule, Estimates(batch.config))
  }

  /** What costs a batch may have does not depend on the state it starts from. */
  lemma HonestFromAnyState(batch: Batch, st: State, other: State, c: nat, a: real)
    requires HonestBatch(batch, st, c, a)
    ensures HonestBatch(batch, other, c, a)
  {
    forall k | 0 <= k < |batch.schedule|
      ensures CostWithin(batch.config, NextStart(batch, other), batch.schedule[k], Estimates(batch.config))
    {
      assert CostWithin(batch.config, NextStart(batch, st), batch.schedule[k], Estimates(batch.config));
    }
  }

  lemma HonestBatchBound(batch: Batch, st: State, c: nat, a: real)
    requires st.cap.Dollars? && c > 0 && a >= 0.0 && HonestBatch(batch, st, c, a)
    ensures RunBatch(batch, st).spent <= MaxReal(st.spent, st.cap.amount + Times(c - 1, a))
  {
    var start, config := NextStart(batch, st), batch.config;
    NextStartIsInitial(batch, st);
    forall i | 0 <= i < |start.slots|
      ensures EstimateOf(config, start.slots[i].task) <= a
    {
      assert start.slots[i].task == batch.tasks[i];
    }
    if config.concurrency > 0 {
      TimesGrows(config.concurrency - 1, c - 1, a);
    }
    ReservedHonestBound(config, start, batch.schedule, a, MaxReal(st.spent, st.cap.amount + Times(c - 1, a)));
    ReserveNonNegative(RunBatch(batch, st).slots, Estimates(config));
  }

  /** Over any number of honest batches the spend passes the cap by at most one estimate per permit but one:
      the overshoot of one batch is not added to that of the next. */
  lemma {:induction false} HonestBatchesBound(st0: State, batches: seq<Batch>, c: nat, a: real)
    requires st0.cap.Dollars? && c > 0 && a >= 0.0
    requires forall batch | batch in batches :: HonestBatch(batch, st0, c, a)
    ensures RunBatches(st0, batches).spent <= MaxReal(st0.spent, st0.cap.amount + Times(c - 1, a))
  {
    if batches == [] {
    } else {
      var front, last := batches[..|batches| - 1], batches[|batches| - 1];
      HonestBatchesBound(st0, front, c, a);
      CapStaysThroughout(st0, front);
      HonestFromAnyState(last, st0, RunBatches(st0, front), c, a);
      HonestBatchBound(last, RunBatches(st0, front), c, a);
    }
  }

  // ---------------------------------------------------------------- an overspent budget

  predicate Untouched(st0: State, st: State) {
    && st.cap == st0.cap && st.spent == st0.spent && st.calls == st0.calls
    && forall i | 0 <= i < |st.slots| :: !InFlight(st.slots[i])
  }

  lemma StepUntouched(config: Config, st0: State, st: State, event: Event)
    requires st0.cap.Dollars? && st0.spent > st0.cap.amount && Untouched(st0, st)
    ensures Untouched(st0, Step(config, st, event))
  {
    if Enabled(st, event) {
      StepMoves(config, st, event);
    }
  }

  lemma {:induction false} OverspentStays(config: Config, st0: State, schedule: seq<Event>)
    requires Initial(config, st0) && st0.cap.Dollars? && st0.spent > st0.cap.amount
    ensures Untouched(st0, Replay(config, st0, schedule))
  {
    if schedule == [] {
    } else {
      OverspentStays(config, st0, schedule[..|schedule| - 1]);
      StepUntouched(config, st0, Replay(config, st0, schedule[..|schedule| - 1]), schedule[|schedule| - 1]);
    }
  }

  /** Once the cap is passed no later batch calls the provider or spends anything, however costly its replies
      would be. */
  lemma {:induction false} OverspentBudgetBuysNothing(st0: State, batches: seq<Batch>)
    requires st0.cap.Dollars? && st0.spent > st0.cap.amount
    ensures RunBatches(st0, batches).spent == st0.spent
    ensures batches != [] ==> RunBatches(st0, batches).calls == 0
  {
    if batches == [] {
    } else {
      var front, last := batches[..|batches| - 1], batches[|batches| - 1];
      OverspentBudgetBuysNothing(st0, front);
      CapStaysThroughout(st0, front);
      NextStartIsInitial(last, RunBatches(st0, front));
      OverspentStays(last.config, NextStart(last, RunBatches(st0, front)), last.schedule);
    }
  }

  // ---------------------------------------------------------------- deduplication

  /** How many narratives the batches generate for a key. */
  function GeneratedInBatches(st0: State, batches: seq<Batch>, key: string): nat {
    if batches == [] then 0
    else GeneratedInBatches(st0, batches[..|batches| - 1], key) + GeneratedFor(RunBatches(st0, batches), key)
  }

  lemma BatchGenerates(batch: Batch, st: State, key: string)
    ensures var end := RunBatch(batch, st);
            && GeneratedFor(end, key) <= (if key in st.cache then 0 else batch.config.concurrency)
            && (key in st.cache || GeneratedFor(end, key) > 0 ==> key in end.cache)
  {
    NextStartIsInitial(batch, st);
    GeneratedPerKey(batch.config, NextStart(batch, st), batch.schedule, key);
    EveryScheduleKeyBounded(batch.config, NextStart(batch, st), batch.schedule, key);
  }

  lemma {:induction false} GeneratedIsCached(st0: State, batches: seq<Batch>, key: string)
    ensures key in st0.cache || GeneratedInBatches(st0, batches, key) > 0 ==> key in RunBatches(st0, batches).cache
  {
    if batches == [] {
    } else {
      GeneratedIsCached(st0, batches[..|batches| - 1], key);
      BatchGenerates(batches[|batches| - 1], RunBatches(st0, batches[..|batches| - 1]), key);
    }
  }

  /** However many batches share a cache, a key is generated at most once per permit over all of them. */
  lemma {:induction false} GeneratedPerKeyOverBatches(st0: State, batches: seq<Batch>, key: string, c: nat)
    requires forall batch | batch in batches :: batch.config.concurrency <= c
    ensures GeneratedInBatches(st0, batches, key) <= if key in st0.cache then 0 else c
  {
    if batches == [] {
    } else {
      var front, last := batches[..|batches| - 1], batches[|batches| - 1];
      GeneratedPerKeyOverBatches(st0, front, key, c);
      GeneratedIsCached(st0, front, key);
      BatchGenerates(last, RunBatches(st0, front), key);
    }
  }

  function AfterBatch(st0: State, batches: seq<Batch>, k: nat): State
    requires k < |batches|
  {
    RunBatches(st0, batches[..k + 1])
  }

  /** And only one of them generates it. */
  lemma OneBatchGenerates(st0: State, batches: seq<Batch>, key: string, j: nat, k: nat)
    requires j < k < |batches| && GeneratedFor(AfterBatch(st0, batches, j), key) > 0
    ensures GeneratedFor(AfterBatch(st0, batches, k), key) == 0
  {
    GeneratedGrows(st0, batches, key, j + 1, k);
    GeneratedIsCached(st0, batches[..k], key);
    BatchGenerates(batches[k], RunBatches(st0, batches[..k]), key);
    assert batches[..k + 1][..k] == batches[..k];
  }

  lemma {:induction false} GeneratedGrows(st0: State, batches: seq<Batch>, key: string, j: nat, k: nat)
    requires j <= k <= |batches|
    ensures GeneratedInBatches(st0, batches[..j], key) <= GeneratedInBatches(st0, batches[..k], key)
    decreases k
  {
    if j == k {
    } else {
      GeneratedGrows(st0, batches, key, j, k - 1);
      assert batches[..k][..k - 1] == batches[..k - 1];
    }
  }
}
