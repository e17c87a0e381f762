/** How often one cache key can be generated, and what happens once it is stored. */
module NarrativeDeduplication {
  import opened Sequences
  import opened NarrativeCache
  import opened NarrativeBatch
  import opened NarrativeBatchSafety
  import opened NarrativeBatchTheorems

  function GeneratedFor(st: State, key: string): nat {
    Count(st.slots, OnKey(key, EndedAs(Generated)))
  }

  function InFlightFor(st: State, key: string): nat {
    Count(st.slots, OnKey(key, InFlight))
  }

  /** A stored key starts no further call, so its calls in flight can only turn into narratives. */
  ghost predicate KeyBounded(config: Config, st0: State, st: State, key: string) {
    && st0.cache.Keys <= st.cache.Keys
    && (key !in st.cache ==> GeneratedFor(st, key) == 0)
    && (key in st.cache ==>
          GeneratedFor(st, key) + InFlightFor(st, key) <= if key in st0.cache then 0 else config.concurrency)
  }

  lemma InFlightWithinPermits(config: Config, st: State, key: string)
    requires Accounted(config, st)
    ensures InFlightFor(st, key) <= config.concurrency
  {
    CountImplied(st.slots, OnKey(key, InFlight), HoldsPermit);
  }

  /** How one move touches the cache and the call it may start or end. */
  lemma KeyMoves(config: Config, st: State, next: State, i: nat, after: Phase)
    requires Moves(config, st, next, i, after)
    ensures after == Finished(Generated) ==> InFlight(st.slots[i])
    ensures InFlight(Slot(st.slots[i].task, after)) ==> InFlight(st.slots[i]) || st.slots[i].task.key !in st.cache
    ensures next.cache.Keys
            == if after == Finished(Generated) then st.cache.Keys + {st.slots[i].task.key} else st.cache.Keys
  {
  }

  lemma KeyCountsMove(st: State, next: State, i: nat, after: Phase, key: string)
    requires i < |st.slots| && next.slots == st.slots[i := Slot(st.slots[i].task, after)]
    ensures var one := (b: bool) => if b then 1 else 0;
            var mine := st.slots[i].task.key == key;
            && GeneratedFor(next, key) == GeneratedFor(st, key)
               - one(mine && st.slots[i].phase == Finished(Generated)) + one(mine && after == Finished(Generated))
            && InFlightFor(next, key) == InFlightFor(st, key)
               - one(mine && InFlight(st.slots[i])) + one(mine && InFlight(Slot(st.slots[i].task, after)))
  {
    var slot := Slot(st.slots[i].task, after);
    CountUpdate(st.slots, i, slot, OnKey(key, EndedAs(Generated)));
    CountUpdate(st.slots, i, slot, OnKey(key, InFlight));
  }

  lemma MoveKeyBounded(config: Config, st0: State, st: State, next: State, i: nat, after: Phase, key: string)
    requires Accounted(config, st) && KeyBounded(config, st0, st, key) && Moves(config, st, next, i, after)
    ensures KeyBounded(config, st0, next, key)
  {
    InFlightWithinPermits(config, st, key);
    KeyMoves(config, st, next, i, after);
    KeyCountsMove(st, next, i, after, key);
  }

  lemma StepKeyBounded(config: Config, st0: State, st: State, event: Event, key: string)
    requires Accounted(config, st) && KeyBounded(config, st0, st, key)
    ensures KeyBounded(config, st0, Step(config, st, event), key)
  {
    if Enabled(st, event) {
      StepMoves(config, st, event);
      MoveKeyBounded(config, st0, st, Step(config, st, event), event.index, NextPhase(config, st, event), key);
    }
  }

  lemma InitialKeyBounded(config: Config, st0: State, key: string)
    requires Initial(config, st0)
    ensures KeyBounded(config, st0, st0, key)
  {
    NoneInPhase(st0.slots);
    CountImplied(st0.slots, OnKey(key, EndedAs(Generated)), EndedAs(Generated));
    CountImplied(st0.slots, OnKey(key, InFlight), InFlight);
  }

  lemma {:induction false} EveryScheduleKeyBounded(config: Config, st0: State, schedule: seq<Event>, key: string)
    requires Initial(config, st0)
    ensures KeyBounded(config, st0, Replay(config, st0, schedule), key)
  {
    if schedule == [] {
      InitialKeyBounded(config, st0, key);
    } else {
      var before, event := schedule[..|schedule| - 1], schedule[|schedule| - 1];
      EveryScheduleKeyBounded(config, st0, before, key);
      InitialIsSound(config, st0);
      EveryScheduleIsSound(config, st0, before);
      StepKeyBounded(config, st0, Replay(config, st0, before), event, key);
    }
  }

  /** A key absent at the start is generated at most once per permit; a key present, never. */
  lemma GeneratedPerKey(config: Config, st0: State, schedule: seq<Event>, key: string)
    requires Initial(config, st0)
    ensures GeneratedFor(Replay(config, st0, schedule), key) <= if key in st0.cache then 0 else config.concurrency
  {
    EveryScheduleKeyBounded(config, st0, schedule, key);
  }

  function TaskKeys(st: State): set<string> {
    set i | 0 <= i < |st.slots| :: st.slots[i].task.key
  }

  function AmongKeys(keys: set<string>, p: Slot -> bool): Slot -> bool {
    (slot: Slot) => slot.task.key in keys && p(slot)
  }

  lemma {:induction false} CountAmongKeys(slots: seq<Slot>, keys: set<string>, p: Slot -> bool, most: nat)
    requires forall key | key in keys :: Count(slots, OnKey(key, p)) <= most
    ensures Count(slots, AmongKeys(keys, p)) <= |keys| * most
    decreases |keys|
  {
    if keys == {} {
      CountPositive(slots, AmongKeys(keys, p));
    } else {
      var key :| key in keys;
      CountAmongKeys(slots, keys - {key}, p, most);
      CountSplit(slots, OnKey(key, p), AmongKeys(keys - {key}, p), AmongKeys(keys, p));
      NextMultiple(|keys - {key}|, most);
      assert |keys| == |keys - {key}| + 1;
    }
  }

  lemma NextMultiple(n: nat, most: nat)
    ensures (n + 1) * most == n * most + most
  {
  }

  lemma GeneratedKeysWereAbsent(config: Config, st0: State, schedule: seq<Event>, slot: Slot)
    requires Initial(config, st0) && slot in Replay(config, st0, schedule).slots
    requires EndedAs(Generated)(slot)
    ensures slot.task.key in TaskKeys(st0) - st0.cache.Keys
  {
    var st := Replay(config, st0, schedule);
    InitialIsSound(config, st0);
    EveryScheduleIsSound(config, st0, schedule);
    var i :| 0 <= i < |st.slots| && st.slots[i] == slot;
    assert slot.task == st0.slots[i].task;
    GeneratedPerKey(config, st0, schedule, slot.task.key);
    assert OnKey(slot.task.key, EndedAs(Generated))(st.slots[i]);
    CountPositive(st.slots, OnKey(slot.task.key, EndedAs(Generated)));
  }

  /** Summed over the batch: at most `concurrency` narratives per distinct key that was not cached. */
  lemma {:induction false} GeneratedInAll(config: Config, st0: State, schedule: seq<Event>)
    requires Initial(config, st0)
    ensures Replay(config, st0, schedule).tally.generated
            <= |TaskKeys(st0) - st0.cache.Keys| * config.concurrency
  {
    var st := Replay(config, st0, schedule);
    var keys := TaskKeys(st0) - st0.cache.Keys;
    InitialIsSound(config, st0);
    EveryScheduleIsSound(config, st0, schedule);
    forall key | key in keys
      ensures Count(st.slots, OnKey(key, EndedAs(Generated))) <= config.concurrency
    {
      GeneratedPerKey(config, st0, schedule, key);
    }
    CountAmongKeys(st.slots, keys, EndedAs(Generated), config.concurrency);
    forall slot | slot in st.slots && EndedAs(Generated)(slot)
      ensures slot.task.key in keys
    {
      GeneratedKeysWereAbsent(config, st0, schedule, slot);
    }
    CountSame(st.slots, EndedAs(Generated), AmongKeys(keys, EndedAs(Generated)));
  }

  lemma {:induction false} CacheGrows(config: Config, st: State, schedule: seq<Event>)
    ensures st.cache.Keys <= Replay(config, st, schedule).cache.Keys
  {
    if schedule == [] {
    } else {
      CacheGrows(config, st, schedule[..|schedule| - 1]);
      var event, mid := schedule[|schedule| - 1], Replay(config, st, schedule[..|schedule| - 1]);
      if Enabled(mid, event) {
        StepMoves(config, mid, event);
      }
    }
  }

  /** Once a key is stored, every task on it that begins later is a cache hit and calls nobody. */
  lemma LaterTasksHit(config: Config, st: State, later: seq<Event>, event: Event)
    requires event.Begin? && Enabled(Replay(config, st, later), event)
    requires Replay(config, st, later).slots[event.index].task.key in st.cache
    ensures var mid, next := Replay(config, st, later), Step(config, Replay(config, st, later), event);
            var key := mid.slots[event.index].task.key;
            && next.slots[event.index].phase == Finished(CacheHit)
            && next.calls == mid.calls && next.spent == mid.spent && next.stored == mid.stored
            && next.tally.cacheHits == mid.tally.cacheHits + 1
            && key in mid.cache && next.cache == mid.cache[key := Bumped(mid.cache[key], event.now)]
  {
    CacheGrows(config, st, later);
  }
}
