/** The rules of the native turn tracker, as functions of one process's observation. Timestamps are integers in the
    order of the source's fixed-width ISO strings; "" stands for a missing or null string, as in the source's
    truthiness tests. Display text is left out. */
module TurnRules {
  import opened Options

  datatype Agent = Claude | Codex | OtherAgent
  datatype Background = Clear | Active | NotReported
  datatype Phase = Ready | Working | Idle | Interrupted | Uncertain
  datatype Event = SessionStarted | TurnStarted | TurnComplete | TurnInterrupted | Outcome

  datatype Identity = Identity(socketPath: string, serverPid: string, serverStarted: string, paneId: string, panePid: string)
  datatype Key = Key(agent: Agent, identity: Identity, cliPid: string)

  datatype Hook = Hook(event: Event, source: Agent, identity: Option<Identity>, sessionId: string, sourceTurnId: string,
                       cliPid: string, startedAt: Option<int>, settled: bool,
                       backgroundState: Option<Background>, completionSequence: Option<int>)

  /** What the adapter reported about the pane before the tracker reads its own state; None when a call failed. */
  datatype Inspection = Inspection(eligible: bool, kind: Agent, identity: Identity, foreground: string)

  datatype Obs = Obs(sessionId: string, sourceTurnId: string, startedAt: int, phase: Phase, updatedAt: int, finished: bool,
                     humanConfirmed: bool, completionSequence: Option<int>, backgroundState: Option<Background>)

  /** The key an admitted hook belongs to: a complete hook, whose live pane and foreground process still match. */
  function Admit(hook: Hook, inspection: Option<Inspection>): (key: Option<Key>)
    ensures key.Some? ==> hook.startedAt.Some? && hook.sessionId != "" && hook.event != Outcome
    ensures key.Some? ==> key.value.cliPid != "" && key.value.agent == hook.source && hook.identity == Some(key.value.identity)
    ensures key.Some? && hook.event != SessionStarted ==> hook.sourceTurnId != ""
  {
    if hook.identity.None? || hook.cliPid == "" || hook.startedAt.None? || hook.sessionId == "" || hook.event == Outcome
       || (hook.event != SessionStarted && hook.sourceTurnId == "") then None
    else match inspection
      case None => None
      case Some(pane) =>
        if !pane.eligible || pane.kind != hook.source || pane.identity != hook.identity.value then None
        else if pane.foreground != hook.cliPid then None
        else Some(Key(hook.source, pane.identity, hook.cliPid))
  }

  predicate Complete?(hook: Hook) {
    hook.startedAt.Some? && hook.sessionId != "" && (hook.event != SessionStarted ==> hook.sourceTurnId != "")
  }

  /** A hook complete enough to be recorded. */
  type Signal = hook: Hook | Complete?(hook)
    witness Hook(SessionStarted, Claude, None, "s", "", "", Some(0), false, None, None)

  predicate Completion?(hook: Hook) {
    hook.event == TurnComplete || hook.event == TurnInterrupted
  }

  /** The hook speaks about exactly the observed turn. */
  predicate Matches(obs: Obs, hook: Hook) {
    obs.sessionId == hook.sessionId && obs.sourceTurnId == hook.sourceTurnId && Some(obs.startedAt) == hook.startedAt
  }

  /** A turn was observed or a human took responsibility; a bare startup is neither. */
  predicate Anchored(obs: Obs) {
    obs.sourceTurnId != "" || obs.humanConfirmed
  }

  function Fresh(hook: Signal, phase: Phase, now: int): Obs
  {
    Obs(hook.sessionId, if hook.event == SessionStarted then "" else hook.sourceTurnId, hook.startedAt.value, phase, now, false, false, None, None)
  }

  predicate Outdated(obs: Obs, hook: Hook) {
    hook.completionSequence.Some? && hook.completionSequence.value <= obs.completionSequence.GetOr(0)
  }

  function SettledPhase(hook: Hook): Phase {
    if hook.source == Claude && hook.backgroundState == Some(Active) then Working
    else if hook.settled && (hook.source == Codex || hook.backgroundState == Some(Clear)) then Idle
    else Uncertain
  }

  function Finish(obs: Obs, hook: Hook, now: int): Obs {
    if hook.event == TurnInterrupted then
      obs.(finished := true, updatedAt := now, backgroundState := hook.backgroundState, phase := Interrupted)
    else
      obs.(finished := SettledPhase(hook) == Idle, updatedAt := now, backgroundState := hook.backgroundState,
           phase := SettledPhase(hook), completionSequence := hook.completionSequence)
  }

  /** What a hook does to the observation it finds: nothing, replace it by a new one, change it in place, or first await
      the on-disk binding check. */
  datatype Verdict = Ignore | Replace(next: Obs) | Mutate(next: Obs) | AwaitBinding

  function Judge(prior: Option<Obs>, hook: Signal, now: int): Verdict
  {
    if hook.event == SessionStarted then
      if prior.Some? then Ignore else Replace(Fresh(hook, Ready, now))
    else if prior.Some? && prior.value.humanConfirmed && hook.startedAt.value <= prior.value.startedAt then Ignore
    else if hook.event == TurnStarted then
      if prior.Some? && (Matches(prior.value, hook) || (prior.value.sourceTurnId != "" && hook.startedAt.value <= prior.value.startedAt))
      then Ignore else Replace(Fresh(hook, Working, now))
    else if prior.Some? && Matches(prior.value, hook) then
      if prior.value.finished || Outdated(prior.value, hook) then Ignore else Mutate(Finish(prior.value, hook, now))
    else if prior.Some? && (prior.value.sourceTurnId != "" || (prior.value.sessionId != "" && prior.value.sessionId != hook.sessionId)) then Ignore
    else AwaitBinding
  }

  /** What lets a completion await the binding check: no turn is observed, nor another session, nor a later confirmation. */
  predicate Recoverable(prior: Option<Obs>, hook: Signal)
  {
    hook.event != SessionStarted && hook.event != TurnStarted
    && (prior.Some? ==>
          && prior.value.sourceTurnId == ""
          && (prior.value.humanConfirmed ==> prior.value.startedAt < hook.startedAt.value)
          && (prior.value.sessionId != "" ==> prior.value.sessionId == hook.sessionId))
  }

  lemma AwaitsExactlyWhenRecoverable(prior: Option<Obs>, hook: Signal, now: int)
    ensures Judge(prior, hook, now).AwaitBinding? <==> Recoverable(prior, hook)
  {
  }

  /** The observation a recovered completion installs, when its sequence is acceptable for a new turn. */
  function Recovered(hook: Signal, now: int): Option<Obs>
  {
    var blank := Fresh(hook, Uncertain, now);
    if Outdated(blank, hook) then None else Some(Finish(blank, hook, now))
  }

  function Confirmed(now: int): Obs {
    Obs("", "", now, Ready, now, false, true, None, None)
  }

  predicate Confirmable(prior: Option<Obs>, expectedUpdatedAt: Option<int>) {
    match prior
    case None => expectedUpdatedAt == None
    case Some(obs) => obs.phase == Uncertain && expectedUpdatedAt == Some(obs.updatedAt)
  }

  predicate SettledForGit(prior: Option<Obs>, agent: Agent) {
    prior.Some? && !prior.value.humanConfirmed && prior.value.phase in {Idle, Ready}
    && (if agent == Codex then prior.value.backgroundState != Some(Active) else prior.value.backgroundState == Some(Clear))
  }

  /** A finished turn gives way only to a turn start stamped strictly later. */
  lemma FinishedTurnHolds(obs: Obs, hook: Signal, now: int)
    requires obs.finished && obs.sourceTurnId != ""
    ensures Judge(Some(obs), hook, now) ==
            if hook.event == TurnStarted && obs.startedAt < hook.startedAt.value then Replace(Fresh(hook, Working, now)) else Ignore
  {
  }
}

/** The tracker's registry of observations. A stamp is the identity of an observation object: a replaced entry gets a
    stamp never used before, a change in place keeps it. `record` is split at its one await. */
module TurnRegistry {
  import opened Options
  import opened TurnRules

  datatype Cell = Cell(stamp: nat, obs: Obs)
  datatype Registry = Registry(cells: map<Key, Cell>, next: nat)
  /** A suspended completion: the object it found, by stamp, when it began. */
  datatype Suspended = Suspended(key: Key, hook: Signal, prior: Option<nat>)

  const Empty: Registry := Registry(map[], 0)

  function ObsAt(r: Registry, key: Key): Option<Obs> {
    if key in r.cells then Some(r.cells[key].obs) else None
  }

  function StampAt(r: Registry, key: Key): Option<nat> {
    if key in r.cells then Some(r.cells[key].stamp) else None
  }

  function Install(r: Registry, key: Key, obs: Obs): Registry {
    Registry(r.cells[key := Cell(r.next, obs)], r.next + 1)
  }

  function Apply(r: Registry, key: Key, verdict: Verdict): (q: Registry)
    requires verdict.Mutate? ==> key in r.cells
  {
    match verdict
    case Ignore => r
    case Replace(obs) => Install(r, key, obs)
    case Mutate(obs) => r.(cells := r.cells[key := Cell(r.cells[key].stamp, obs)])
    case AwaitBinding => r
  }

  function Begin(r: Registry, key: Key, hook: Signal, now: int): (Registry, Option<Suspended>)
  {
    var verdict := Judge(ObsAt(r, key), hook, now);
    (Apply(r, key, verdict), if verdict.AwaitBinding? then Some(Suspended(key, hook, StampAt(r, key))) else None)
  }

  /** The second half of a recovery: the sequence test, then the identity test, then the write. */
  function Resume(r: Registry, s: Suspended, bound: bool, now: int): Registry
  {
    if !bound || Recovered(s.hook, now).None? || StampAt(r, s.key) != s.prior then r
    else Install(r, s.key, Recovered(s.hook, now).value)
  }

  function Confirm(r: Registry, key: Key, expectedUpdatedAt: Option<int>, now: int): (Registry, bool) {
    if key.cliPid != "" && Confirmable(ObsAt(r, key), expectedUpdatedAt) then (Install(r, key, Confirmed(now)), true) else (r, false)
  }

  /** Reading and writing in one step, as if the binding check took no time. */
  function RecordAtOnce(r: Registry, key: Key, hook: Hook, bound: bool, now: int): Registry {
    if !Complete?(hook) then r else
      var (q, s) := Begin(r, key, hook, now);
      if s.Some? then Resume(q, s.value, bound, now) else q
  }

  // ---- Interleaved runs ----

  datatype Step =
    | Deliver(hook: Hook, inspection: Option<Inspection>, now: int)
    | Continue(call: nat, bound: bool, now: int)
    | Acknowledge(key: Key, expectedUpdatedAt: Option<int>, now: int)

  datatype Machine = Machine(registry: Registry, calls: map<nat, Suspended>, nextCall: nat)

  ghost predicate Sound(m: Machine) {
    (forall id <- m.calls :: Completion?(m.calls[id].hook)
                            && m.calls[id].hook.sourceTurnId != "" && m.calls[id].key.cliPid != ""
                             && m.calls[id].hook.source == m.calls[id].key.agent)
    && (forall k <- m.registry.cells :: m.registry.cells[k].stamp < m.registry.next)
    && (forall k <- m.registry.cells :: m.registry.cells[k].obs.humanConfirmed ==> m.registry.cells[k].obs.sourceTurnId == "")
    && (forall k <- m.registry.cells :: k.cliPid != "" && Tidy(m.registry.cells[k].obs))
  }

  /** Finished observations are turns at rest; an idle or interrupted phase is always finished. */
  predicate Tidy(obs: Obs) {
    && (obs.finished <==> obs.phase in {Idle, Interrupted})
    && (obs.finished ==> obs.sourceTurnId != "")
    && (obs.phase == Ready <==> obs.sourceTurnId == "")
    && (obs.sourceTurnId == "" ==> obs.backgroundState == None)
  }

  function Next(m: Machine, step: Step): Machine {
    match step
    case Deliver(hook, inspection, now) =>
      var key := Admit(hook, inspection);
      if key.None? then m else
        var (q, s) := Begin(m.registry, key.value, hook, now);
        if s.Some? then Machine(q, m.calls[m.nextCall := s.value], m.nextCall + 1) else m.(registry := q)
    case Continue(call, bound, now) =>
      if call !in m.calls then m
      else m.(registry := Resume(m.registry, m.calls[call], bound, now), calls := m.calls - {call})
    case Acknowledge(key, expected, now) => m.(registry := Confirm(m.registry, key, expected, now).0)
  }

  function Run(steps: seq<Step>): Machine {
    if steps == [] then Machine(Empty, map[], 0) else Next(Run(steps[..|steps| - 1]), steps[|steps| - 1])
  }

  lemma VerdictsAreTidy(prior: Option<Obs>, hook: Signal, now: int)
    requires prior.Some? ==> Tidy(prior.value)
    ensures var v := Judge(prior, hook, now);
            && (v.Replace? ==> Tidy(v.next))
            && (v.Mutate? ==> Tidy(v.next) && prior.Some? && v.next.humanConfirmed == prior.value.humanConfirmed
                              && v.next.sourceTurnId == prior.value.sourceTurnId != "")
            && (hook.event != Outcome && v.AwaitBinding? ==> Completion?(hook))
    ensures Completion?(hook) && Recovered(hook, now).Some? ==> Tidy(Recovered(hook, now).value)
  {
  }

  lemma StepKeepsSound(m: Machine, step: Step)
    requires Sound(m)
    ensures Sound(Next(m, step))
  {
    match step
    case Deliver(hook, inspection, now) =>
      var key := Admit(hook, inspection);
      if key.Some? {
        VerdictsAreTidy(ObsAt(m.registry, key.value), hook, now);
      }
    case Continue(call, _, now) =>
      if call in m.calls {
        VerdictsAreTidy(None, m.calls[call].hook, now);
      }
    case Acknowledge(_, _, _) =>
  }

  lemma {:induction false} RunKeepsSound(steps: seq<Step>)
    ensures Sound(Run(steps))
  {
    if steps != [] {
      RunKeepsSound(steps[..|steps| - 1]);
      StepKeepsSound(Run(steps[..|steps| - 1]), steps[|steps| - 1]);
    }
  }

  // ---- Serializability ----

  datatype Atomic =
    | Record(key: Key, hook: Hook, bound: bool, now: int)
    | Acknowledged(key: Key, expectedUpdatedAt: Option<int>, now: int)

  function RunAtomic(ops: seq<Atomic>): Registry
  {
    if ops == [] then Empty else
      Perform(RunAtomic(ops[..|ops| - 1]), ops[|ops| - 1])
  }

  function Perform(r: Registry, op: Atomic): Registry {
    match op
    case Record(key, hook, bound, now) => RecordAtOnce(r, key, hook, bound, now)
    case Acknowledged(key, expected, now) => Confirm(r, key, expected, now).0
  }

  /** The atomic operation a step stands for. A completion that suspends stands for nothing until it resumes; one whose
      test then fails stands for nothing at all. */
  function Effect(m: Machine, step: Step): (ops: seq<Atomic>)
    ensures |ops| <= 1
  {
    match step
    case Deliver(hook, inspection, now) =>
      var key := Admit(hook, inspection);
      if key.None? || Begin(m.registry, key.value, hook, now).1.Some? then [] else [Record(key.value, hook, false, now)]
    case Continue(call, bound, now) =>
      if call !in m.calls || Resume(m.registry, m.calls[call], bound, now) == m.registry then []
      else [Record(m.calls[call].key, m.calls[call].hook, true, now)]
    case Acknowledge(key, expected, now) => [Acknowledged(key, expected, now)]
  }

  function Serialize(steps: seq<Step>): seq<Atomic>
  {
    if steps == [] then [] else
      Serialize(steps[..|steps| - 1]) + Effect(Run(steps[..|steps| - 1]), steps[|steps| - 1])
  }

  /** Why the identity test suffices: while the entry is still the object a suspended completion found, its contents
      still ask for the same recovery. */
  ghost predicate StillRecoverable(m: Machine) {
    forall id <- m.calls ::
      && (m.calls[id].prior.Some? ==> m.calls[id].prior.value < m.registry.next)
      && (StampAt(m.registry, m.calls[id].key) == m.calls[id].prior
          ==> Recoverable(ObsAt(m.registry, m.calls[id].key), m.calls[id].hook))
  }

  /** A step leaves an entry alone, replaces it by a new object, or changes a recorded turn in place. */
  ghost predicate CellMoves(r: Registry, q: Registry, key: Key) {
    && r.next <= q.next
    && (key in r.cells ==> key in q.cells)
    && (key in q.cells && (key !in r.cells || q.cells[key] != r.cells[key]) ==>
          || (q.cells[key].stamp == r.next && r.next < q.next)
          || (key in r.cells && q.cells[key].stamp == r.cells[key].stamp && r.cells[key].obs.sourceTurnId != ""
              && !r.cells[key].obs.finished))
  }

  lemma StepMovesCells(m: Machine, step: Step, key: Key)
    requires Sound(m)
    ensures CellMoves(m.registry, Next(m, step).registry, key)
  {
  }

  lemma NewCallIsRecoverable(m: Machine, step: Step)
    requires Sound(m)
    ensures var n := Next(m, step);
            forall id <- n.calls :: (id in m.calls && n.calls[id] == m.calls[id])
              || (n.registry == m.registry && StampAt(m.registry, n.calls[id].key) == n.calls[id].prior
                  && Recoverable(ObsAt(m.registry, n.calls[id].key), n.calls[id].hook))
  {
    if step.Deliver? && Admit(step.hook, step.inspection).Some? {
      AwaitsExactlyWhenRecoverable(ObsAt(m.registry, Admit(step.hook, step.inspection).value), step.hook, step.now);
    }
  }

  lemma StepKeepsRecoverable(m: Machine, step: Step)
    requires Sound(m) && StillRecoverable(m)
    ensures StillRecoverable(Next(m, step))
  {
    var n := Next(m, step);
    NewCallIsRecoverable(m, step);
    forall id | id in n.calls
      ensures n.calls[id].prior.Some? ==> n.calls[id].prior.value < n.registry.next
      ensures StampAt(n.registry, n.calls[id].key) == n.calls[id].prior
              ==> Recoverable(ObsAt(n.registry, n.calls[id].key), n.calls[id].hook)
    {
      StepMovesCells(m, step, n.calls[id].key);
    }
  }

  lemma {:induction false} RunKeepsRecoverable(steps: seq<Step>)
    ensures Sound(Run(steps)) && StillRecoverable(Run(steps))
  {
    RunKeepsSound(steps);
    if steps != [] {
      RunKeepsRecoverable(steps[..|steps| - 1]);
      StepKeepsRecoverable(Run(steps[..|steps| - 1]), steps[|steps| - 1]);
    }
  }

  lemma ResumedIsRecordedAtOnce(r: Registry, s: Suspended, bound: bool, now: int)
    requires StampAt(r, s.key) == s.prior && Recoverable(ObsAt(r, s.key), s.hook)
    ensures Resume(r, s, bound, now) == RecordAtOnce(r, s.key, s.hook, bound, now)
  {
    AwaitsExactlyWhenRecoverable(ObsAt(r, s.key), s.hook, now);
  }

  lemma EffectIsTheStep(m: Machine, step: Step)
    requires Sound(m) && StillRecoverable(m)
    ensures var ops := Effect(m, step);
            Next(m, step).registry == if ops == [] then m.registry else Perform(m.registry, ops[0])
  {
    if step.Continue? && step.call in m.calls && StampAt(m.registry, m.calls[step.call].key) == m.calls[step.call].prior {
      if step.bound {
        ResumedIsRecordedAtOnce(m.registry, m.calls[step.call], true, step.now);
      }
    }
  }

  /** Every interleaving leaves the registry that its serialization leaves when each completion reads and writes at once. */
  lemma {:induction false} InterleavingsSerialize(steps: seq<Step>)
    ensures RunAtomic(Serialize(steps)) == Run(steps).registry
  {
    if steps != [] {
      var before, step := steps[..|steps| - 1], steps[|steps| - 1];
      InterleavingsSerialize(before);
      RunKeepsRecoverable(before);
      EffectIsTheStep(Run(before), step);
      var done, ops := Serialize(before), Effect(Run(before), step);
      assert Serialize(steps) == done + ops;
      if ops == [] {
        assert done + ops == done;
      } else {
        assert (done + ops)[..|done + ops| - 1] == done;
      }
    }
  }

  // ---- Order of turns ----

  ghost predicate ClockAhead(m: Machine, step: Step) {
    step.Acknowledge? && step.key in m.registry.cells ==> m.registry.cells[step.key].obs.startedAt <= step.now
  }

  lemma VerdictsKeepStarts(obs: Obs, hook: Signal, now: int)
    requires Anchored(obs)
    ensures var v := Judge(Some(obs), hook, now);
            v.Replace? || v.Mutate? ==> Anchored(v.next) && obs.startedAt <= v.next.startedAt
    ensures Recoverable(Some(obs), hook) && Completion?(hook) && Recovered(hook, now).Some?
            ==> Anchored(Recovered(hook, now).value) && obs.startedAt < Recovered(hook, now).value.startedAt
  {
  }

  /** Start times of turns and confirmations never go back, whatever order events arrive in. */
  lemma StartsNeverGoBack(m: Machine, step: Step, key: Key)
    requires Sound(m) && StillRecoverable(m) && ClockAhead(m, step)
    requires key in m.registry.cells && Anchored(m.registry.cells[key].obs)
    ensures key in Next(m, step).registry.cells
    ensures Anchored(Next(m, step).registry.cells[key].obs)
    ensures m.registry.cells[key].obs.startedAt <= Next(m, step).registry.cells[key].obs.startedAt
  {
    match step
    case Deliver(hook, inspection, now) =>
      if Admit(hook, inspection) == Some(key) {
        VerdictsKeepStarts(m.registry.cells[key].obs, hook, now);
      }
    case Continue(call, bound, now) =>
      if call in m.calls && m.calls[call].key == key {
        VerdictsKeepStarts(m.registry.cells[key].obs, m.calls[call].hook, now);
      }
    case Acknowledge(_, _, _) =>
  }

  lemma {:induction false} StartsNeverGoBackInRuns(steps: seq<Step>, i: nat, key: Key)
    requires i <= |steps| && forall j | i <= j < |steps| :: ClockAhead(Run(steps[..j]), steps[j])
    requires key in Run(steps[..i]).registry.cells && Anchored(Run(steps[..i]).registry.cells[key].obs)
    ensures key in Run(steps).registry.cells && Anchored(Run(steps).registry.cells[key].obs)
    ensures Run(steps[..i]).registry.cells[key].obs.startedAt <= Run(steps).registry.cells[key].obs.startedAt
    decreases |steps|
  {
    if i == |steps| {
      assert steps[..i] == steps;
    } else {
      var before := steps[..|steps| - 1];
      assert before[..i] == steps[..i];
      forall j | i <= j < |before| ensures ClockAhead(Run(before[..j]), before[j]) {
        assert before[..j] == steps[..j];
      }
      StartsNeverGoBackInRuns(before, i, key);
      RunKeepsRecoverable(before);
      StartsNeverGoBack(Run(before), steps[|steps| - 1], key);
    }
  }

  /** The clock hypothesis is needed exactly for confirmations: one given a clock behind the observed start moves it back. */
  lemma LateClockMovesStartBack(m: Machine, step: Step, key: Key)
    requires Sound(m) && StillRecoverable(m)
    requires key in m.registry.cells && Anchored(m.registry.cells[key].obs)
    ensures Next(m, step).registry.cells[key].obs.startedAt < m.registry.cells[key].obs.startedAt
            <==> step.Acknowledge? && step.key == key && Confirmable(ObsAt(m.registry, key), step.expectedUpdatedAt)
                 && step.now < m.registry.cells[key].obs.startedAt
  {
    if !step.Acknowledge? {
      StartsNeverGoBack(m, step, key);
    }
  }

  lemma RunSnoc(steps: seq<Step>, step: Step)
    ensures Run(steps + [step]) == Next(Run(steps), step)
  {
    assert (steps + [step])[..|steps|] == steps;
  }

  // A Claude process in one pane, and the hooks of one of its turns.
  const SomePane := Identity("socket", "1", "2", "%1", "3")
  const SomeKey := Key(Claude, SomePane, "4")

  function TurnHook(event: Event): Hook {
    Hook(event, Claude, Some(SomePane), "session", "turn", "4", Some(10), false, None, None)
  }

  /** The hook arrives from that process, still in the foreground of its pane. */
  function Arrives(event: Event, now: int): Step {
    Deliver(TurnHook(event), Some(Inspection(true, Claude, SomePane, "4")), now)
  }

  /** A turn started at 10 whose completion, without settled evidence, is seen at 11. */
  const UnsettledTurn: seq<Step> := [Arrives(TurnStarted, 10)] + [Arrives(TurnComplete, 11)]

  lemma AfterUnsettledTurn()
    ensures Run(UnsettledTurn).registry ==
            Registry(map[SomeKey := Cell(0, Obs("session", "turn", 10, Uncertain, 11, false, false, None, None))], 1)
  {
    RunSnoc([], Arrives(TurnStarted, 10));
    assert [] + [Arrives(TurnStarted, 10)] == [Arrives(TurnStarted, 10)];
    RunSnoc([Arrives(TurnStarted, 10)], Arrives(TurnComplete, 11));
  }

  /** The condition is reached: acknowledged by a clock at 5, a turn started at 10 is followed by a start at 5. */
  lemma ConfirmationByLateClock()
    ensures var m, n := Run(UnsettledTurn), Run(UnsettledTurn + [Acknowledge(SomeKey, Some(11), 5)]);
            && SomeKey in m.registry.cells && SomeKey in n.registry.cells
            && m.registry.cells[SomeKey].obs.startedAt == 10 && n.registry.cells[SomeKey].obs.startedAt == 5
  {
    AfterUnsettledTurn();
    RunSnoc(UnsettledTurn, Acknowledge(SomeKey, Some(11), 5));
  }

  /** An idle or interrupted turn is changed by nothing but the delivery of a strictly later turn start: not by
      duplicates, late startups, older completions, resumed recoveries or a readiness confirmation. */
  lemma FinishedTurnsYieldOnlyToLaterStarts(m: Machine, step: Step, key: Key)
    requires Sound(m) && StillRecoverable(m)
    requires key in m.registry.cells && m.registry.cells[key].obs.phase in {Idle, Interrupted}
    ensures var obs := m.registry.cells[key].obs;
            var n := Next(m, step);
            key in n.registry.cells
            && (n.registry.cells[key] != m.registry.cells[key] <==>
                step.Deliver? && Admit(step.hook, step.inspection) == Some(key)
                && step.hook.event == TurnStarted && obs.startedAt < step.hook.startedAt.value)
  {
    var obs := m.registry.cells[key].obs;
    if step.Deliver? && Admit(step.hook, step.inspection) == Some(key) {
      FinishedTurnHolds(obs, step.hook, step.now);
      assert m.registry.cells[key].stamp < m.registry.next;
    }
  }

  // ---- Duplicates ----

  /** The entry shows exactly this completion's turn, unfinished, last seen at another time, and no sequence tells the
      completion from a later one. */
  predicate SeenAgain(r: Registry, key: Key, hook: Signal, now: int) {
    && hook.event == TurnComplete && hook.completionSequence.None? && key in r.cells
    && Matches(r.cells[key].obs, hook) && !r.cells[key].obs.finished && r.cells[key].obs.updatedAt != now
  }

  /** The completion would be recovered, were its binding confirmed. */
  predicate Recovers(r: Registry, key: Key, hook: Signal, now: int) {
    Recoverable(ObsAt(r, key), hook) && Recovered(hook, now).Some?
  }

  /** What recording a hook a second time does, whatever the binding check answers either time: an unsettled, unsequenced
      completion is seen again, one whose first check failed may be recovered, and nothing else ever changes. */
  lemma DuplicatesChangeNothing(r: Registry, key: Key, hook: Signal, bound: bool, again: bool, now: int, later: int)
    requires hook.event != Outcome
    requires forall k <- r.cells :: Tidy(r.cells[k].obs) && (r.cells[k].obs.humanConfirmed ==> r.cells[k].obs.sourceTurnId == "")
    ensures var once := RecordAtOnce(r, key, hook, bound, now);
            var twice := RecordAtOnce(once, key, hook, again, later);
            && (twice != once <==> SeenAgain(once, key, hook, later) || (again && Recovers(once, key, hook, later)))
            && (SeenAgain(once, key, hook, later) ==>
                  twice == once.(cells := once.cells[key := once.cells[key].(obs := once.cells[key].obs.(updatedAt := later))]))
            && (again && Recovers(once, key, hook, later) ==>
                  once == r && !bound && twice == Install(r, key, Recovered(hook, later).value))
  {
    var once := RecordAtOnce(r, key, hook, bound, now);
    AwaitsExactlyWhenRecoverable(ObsAt(r, key), hook, now);
    AwaitsExactlyWhenRecoverable(ObsAt(once, key), hook, later);
  }

  /** The condition is reached: the same completion delivered again at 12 moves the time it was last seen. */
  lemma CompletionSeenTwice()
    ensures var m, n := Run(UnsettledTurn), Run(UnsettledTurn + [Arrives(TurnComplete, 12)]);
            && SomeKey in m.registry.cells && SomeKey in n.registry.cells
            && n.registry.cells[SomeKey] == m.registry.cells[SomeKey].(obs := m.registry.cells[SomeKey].obs.(updatedAt := 12))
            && n.registry != m.registry
  {
    AfterUnsettledTurn();
    RunSnoc(UnsettledTurn, Arrives(TurnComplete, 12));
  }
}
