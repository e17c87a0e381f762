/** The narrative batch as a transition system. One step is the code a task runs between two
    suspension points; a schedule is any sequence of such steps, chosen by the event loop and the
    provider. A step that is not enabled leaves the state as it is. */
module NarrativeBatch {
  import opened Sequences
  import opened Text
  import opened NarrativeContent
  import opened NarrativeCache

  datatype Response = Response(content: string, model: string, provider: string,
                               inputTokens: int, outputTokens: int, latencyMs: int)

  datatype Finding = Finding(ruleId: string, evidence: string, promptText: string)

  /** What the batch needs of one finding, computed before its first suspension. */
  datatype Task = Task(key: string, ruleId: string, evidenceHash: string, promptLength: nat)

  datatype Config = Config(model: string, promptVersion: string, concurrency: nat, wordChars: set<char>)

  function TaskFor(sha: string -> string, config: Config): Finding -> Task {
    (finding: Finding) =>
      Task(ComputeCacheKey(sha, finding.ruleId, finding.evidence, config.promptVersion, config.model),
           finding.ruleId, sha(finding.evidence), |finding.promptText|)
  }

  /** Two findings of any two configurations share a cache key exactly when rule, evidence, prompt version and model
      agree. */
  lemma FindingsShareKeysExactly(sha: string -> string, one: Config, other: Config, f: Finding, g: Finding)
    requires Injective(sha) && forall x :: '|' !in sha(x)
    requires '|' !in f.ruleId && '|' !in g.ruleId && '|' !in one.promptVersion && '|' !in other.promptVersion
    ensures TaskFor(sha, one)(f).key == TaskFor(sha, other)(g).key
            <==> f.ruleId == g.ruleId && f.evidence == g.evidence
                 && one.promptVersion == other.promptVersion && one.model == other.model
  {
    CacheKeyIdentifiesRequest(sha, f.ruleId, f.evidence, one.promptVersion, one.model,
                              g.ruleId, g.evidence, other.promptVersion, other.model);
  }

  function EstimateOf(config: Config, task: Task): (cost: real)
    ensures cost >= 0.0
  {
    EstimateForPrompt(config.model, task.promptLength)
  }

  function CostOf(config: Config, response: Response): real {
    EstimateCostUsd(config.model, response.inputTokens, response.outputTokens)
  }

  predicate Accepted(config: Config, response: Response) {
    ValidateStructure(response.content, config.wordChars) == None
  }

  datatype Cap = Unlimited | Dollars(amount: real)

  predicate WouldExceed(cap: Cap, spent: real, estimate: real) {
    cap.Dollars? && spent + estimate > cap.amount
  }

  datatype Outcome = CacheHit | Generated | SkippedBudget | Errored | Crashed

  /** Waiting for a permit; holding one; suspended on the first or the second provider call; over. */
  datatype Phase = Waiting | Admitted | FirstCall | RetryCall | Finished(outcome: Outcome)

  datatype Slot = Slot(task: Task, phase: Phase)

  datatype Tally = Tally(cacheHits: nat, generated: nat, skippedBudget: nat, errored: nat)

  /** A reply as it reached the coroutine that was waiting for it. */
  datatype Served = Served(index: nat, response: Response, at: int)

  /** A row as its coroutine wrote it. */
  datatype Stored = Stored(index: nat, row: CachedNarrative)

  datatype State = State(
    permits: int, slots: seq<Slot>, cap: Cap, spent: real, skipped: nat, cache: Rows,
    last: Option<Response>, tally: Tally,
    // what an observer saw
    calls: nat, served: seq<Served>, stored: seq<Stored>)

  /** Provider answers: a response, a wrapped provider error, or any other exception. */
  datatype Reply = Answered(response: Response) | ProviderFailed | OtherFailure

  datatype Event =
    | Admit(index: nat)
    | Begin(index: nat, now: int, renderFails: bool)
    | Resume(index: nat, now: int, reply: Reply)

  predicate InFlight(slot: Slot) { slot.phase.FirstCall? || slot.phase.RetryCall? }

  predicate HoldsPermit(slot: Slot) { slot.phase.Admitted? || InFlight(slot) }

  function Bump(tally: Tally, outcome: Outcome): Tally {
    match outcome
    case CacheHit => tally.(cacheHits := tally.cacheHits + 1)
    case Generated => tally.(generated := tally.generated + 1)
    case SkippedBudget => tally.(skippedBudget := tally.skippedBudget + 1)
    case Errored => tally.(errored := tally.errored + 1)
    case Crashed => tally
  }

  function WithPhase(st: State, i: nat, phase: Phase): State
    requires i < |st.slots|
  {
    st.(slots := st.slots[i := st.slots[i].(phase := phase)])
  }

  /** A coroutine counts its outcome and leaves the semaphore. */
  function Settle(st: State, i: nat, outcome: Outcome): State
    requires i < |st.slots|
  {
    WithPhase(st, i, Finished(outcome)).(permits := st.permits + 1, tally := Bump(st.tally, outcome))
  }

  function RowFor(config: Config, task: Task, markdown: string, last: Response, now: int): CachedNarrative {
    CachedNarrative(task.key, task.ruleId, task.evidenceHash, config.promptVersion,
                    last.provider, last.model, markdown,
                    last.inputTokens, last.outputTokens, last.latencyMs, now, now, 1)
  }

  /** From admission to the first suspension: cache lookup, prompt, budget check. */
  function BeginStep(config: Config, st: State, i: nat, now: int, renderFails: bool): State
    requires i < |st.slots|
  {
    var task := st.slots[i].task;
    if task.key in st.cache then
      Settle(st.(cache := st.cache[task.key := Bumped(st.cache[task.key], now)]), i, CacheHit)
    else if renderFails then
      Settle(st, i, Crashed)
    else if WouldExceed(st.cap, st.spent, EstimateOf(config, task)) then
      Settle(st.(skipped := st.skipped + 1), i, SkippedBudget)
    else
      WithPhase(st.(calls := st.calls + 1), i, FirstCall)
  }

  /** Spend and cache row are taken from the shared last response. */
  function RecordStep(config: Config, st: State, i: nat, markdown: string, now: int): State
    requires i < |st.slots| && st.last.Some?
  {
    var row := RowFor(config, st.slots[i].task, markdown, st.last.value, now);
    Settle(st.(spent := st.spent + CostOf(config, st.last.value),
               cache := st.cache[row.cacheKey := row],
               stored := st.stored + [Stored(i, row)]), i, Generated)
  }

  /** From a provider reply to the next suspension or the end of the coroutine. */
  function ResumeStep(config: Config, st: State, i: nat, now: int, reply: Reply): State
    requires i < |st.slots|
  {
    match reply
    case ProviderFailed => Settle(st, i, Errored)
    case OtherFailure => Settle(st, i, Crashed)
    case Answered(response) =>
      var seen := st.(last := Some(response), served := st.served + [Served(i, response, now)]);
      if Accepted(config, response) then RecordStep(config, seen, i, response.content, now)
      else if st.slots[i].phase.FirstCall? then WithPhase(seen.(calls := seen.calls + 1), i, RetryCall)
      else Settle(seen, i, Errored)
  }

  predicate Enabled(st: State, event: Event) {
    event.index < |st.slots| &&
    match event
    case Admit(i) => st.slots[i].phase.Waiting? && st.permits > 0
    case Begin(i, _, _) => st.slots[i].phase.Admitted?
    case Resume(i, _, _) => InFlight(st.slots[i])
  }

  function Step(config: Config, st: State, event: Event): State {
    if !Enabled(st, event) then st
    else
      match event
      case Admit(i) => WithPhase(st, i, Admitted).(permits := st.permits - 1)
      case Begin(i, now, renderFails) => BeginStep(config, st, i, now, renderFails)
      case Resume(i, now, reply) => ResumeStep(config, st, i, now, reply)
  }

  /** The state after a whole schedule. */
  function Replay(config: Config, st: State, schedule: seq<Event>): State {
    if schedule == [] then st
    else Step(config, Replay(config, st, schedule[..|schedule| - 1]), schedule[|schedule| - 1])
  }

  /** A batch about to run: every permit free, every task waiting, nothing counted yet. The budget,
      the cache and the last response may carry anything from before. */
  predicate Initial(config: Config, st: State) {
    && st.permits == config.concurrency
    && (forall i | 0 <= i < |st.slots| :: st.slots[i].phase.Waiting?)
    && st.tally == Tally(0, 0, 0, 0)
    && st.calls == 0 && st.served == [] && st.stored == []
  }

  predicate AllFinished(st: State) {
    forall i | 0 <= i < |st.slots| :: st.slots[i].phase.Finished?
  }

  function EndedAs(outcome: Outcome): Slot -> bool {
    (slot: Slot) => slot.phase == Finished(outcome)
  }

  function OnKey(key: string, p: Slot -> bool): Slot -> bool {
    (slot: Slot) => slot.task.key == key && p(slot)
  }

  lemma {:induction false} ReplayAppend(config: Config, st: State, a: seq<Event>, b: seq<Event>)
    ensures Replay(config, st, a + b) == Replay(config, Replay(config, st, a), b)
  {
    if b == [] {
      assert a + b == a;
    } else {
      assert (a + b)[..|a + b| - 1] == a + b[..|b| - 1];
      ReplayAppend(config, st, a, b[..|b| - 1]);
    }
  }
}
