/** What a run of the tracker says at its end: the phase of an entry and the test before a Git mutation, told by the hook
    that last wrote the entry. */
module TurnEvidence {
  import opened Options
  import opened TurnRules
  import opened TurnRegistry

  /** The hook a step applies to the entry of a key: one admitted for it, or one that was when its call began. */
  function Applied(m: Machine, step: Step, key: Key): Option<Hook> {
    match step
    case Deliver(hook, inspection, _) => if Admit(hook, inspection) == Some(key) then Some(hook) else None
    case Continue(call, _, _) => if call in m.calls && m.calls[call].key == key then Some(m.calls[call].hook) else None
    case Acknowledge(_, _, _) => None
  }

  ghost predicate Touches(m: Machine, step: Step, key: Key) {
    var n := Next(m, step);
    key in n.registry.cells && (key !in m.registry.cells || n.registry.cells[key] != m.registry.cells[key])
  }

  /** The observation shows the hook's turn, and the hook says that it ended with settled evidence: from Codex, whose
      notifier cannot report background work, or with clear background work. */
  predicate EndsSettled(obs: Obs, hook: Hook, agent: Agent) {
    hook.event == TurnComplete && Matches(obs, hook) && hook.settled && (agent == Codex || hook.backgroundState == Some(Clear))
  }

  predicate Runs(obs: Obs, hook: Hook, agent: Agent) {
    Matches(obs, hook)
    && (hook.event == TurnStarted || (hook.event == TurnComplete && agent == Claude && hook.backgroundState == Some(Active)))
  }

  /** What the observation shows, by the hook that wrote it; none did if a human confirmed it. */
  ghost predicate Tells(obs: Obs, hook: Option<Hook>, agent: Agent) {
    && (obs.phase == Idle <==> hook.Some? && EndsSettled(obs, hook.value, agent))
    && (obs.phase == Working <==> hook.Some? && Runs(obs, hook.value, agent))
    && (obs.phase == Interrupted <==> hook.Some? && hook.value.event == TurnInterrupted && Matches(obs, hook.value))
    && (obs.phase == Ready <==> hook.None? || hook.value.event == SessionStarted)
    && (obs.finished <==> obs.phase == Idle || obs.phase == Interrupted)
    && (obs.humanConfirmed <==> hook.None?)
    && obs.backgroundState == (if hook.Some? && Completion?(hook.value) then hook.value.backgroundState else None)
  }

  lemma DeliveryTells(m: Machine, step: Step, key: Key)
    requires Sound(m) && step.Deliver? && Touches(m, step, key)
    ensures Tells(Next(m, step).registry.cells[key].obs, Applied(m, step, key), key.agent)
  {
    assert Admit(step.hook, step.inspection) == Some(key);
  }

  lemma RecoveryTells(m: Machine, step: Step, key: Key)
    requires Sound(m) && !step.Deliver? && Touches(m, step, key)
    ensures Tells(Next(m, step).registry.cells[key].obs, Applied(m, step, key), key.agent)
  {
  }

  // ---- When a delivery writes ----

  /** A hook speaks for a process exactly when it is complete and that process, of its own kind, is in the foreground of
      the pane it names. */
  lemma AdmittedExactly(hook: Hook, inspection: Option<Inspection>, key: Key)
    ensures Admit(hook, inspection) == Some(key) <==>
              && hook.event != Outcome && hook.sessionId != "" && hook.startedAt.Some?
              && (hook.event != SessionStarted ==> hook.sourceTurnId != "")
              && key == Key(hook.source, key.identity, hook.cliPid) && hook.identity == Some(key.identity) && key.cliPid != ""
              && inspection == Some(Inspection(true, key.agent, key.identity, key.cliPid))
  {
  }

  /** A turn start is recorded exactly when it starts later than the turn or confirmation observed, if there is one; then
      the turn is working. */
  lemma StartIsRecorded(m: Machine, step: Step, key: Key)
    requires Sound(m) && step.Deliver? && step.hook.event == TurnStarted && Admit(step.hook, step.inspection) == Some(key)
    ensures Touches(m, step, key) <==>
              (key in m.registry.cells && Anchored(m.registry.cells[key].obs) ==>
                 m.registry.cells[key].obs.startedAt < step.hook.startedAt.value)
    ensures Touches(m, step, key) ==>
              var obs := Next(m, step).registry.cells[key].obs;
              Matches(obs, step.hook) && obs.phase == Working && obs.updatedAt == step.now
  {
  }

  /** A startup is recorded exactly when nothing is observed. */
  lemma StartupIsRecorded(m: Machine, step: Step, key: Key)
    requires Sound(m) && step.Deliver? && step.hook.event == SessionStarted && Admit(step.hook, step.inspection) == Some(key)
    ensures Touches(m, step, key) <==> key !in m.registry.cells
  {
  }

  /** The completion that a hook speaks of is the observed, unfinished turn's, and its sequence is new. */
  predicate Completes(m: Machine, hook: Hook, key: Key) {
    && key in m.registry.cells && Matches(m.registry.cells[key].obs, hook) && !m.registry.cells[key].obs.finished
    && (hook.completionSequence.Some? ==> m.registry.cells[key].obs.completionSequence.GetOr(0) < hook.completionSequence.value)
  }

  /** Nothing observed, or no turn: of the same session if one is known, and with no confirmation since the hook's start. */
  predicate NoTurn(m: Machine, hook: Hook, key: Key) {
    key in m.registry.cells ==>
      var obs := m.registry.cells[key].obs;
      && obs.sourceTurnId == "" && obs.sessionId in {"", hook.sessionId}
      && (obs.humanConfirmed ==> hook.startedAt.Some? && obs.startedAt < hook.startedAt.value)
  }

  /** A completion is recorded at once exactly when it completes the observed turn; then the entry was seen at that time and
      shows what the completion says. It waits for the binding check exactly when no turn is observed. */
  lemma CompletionIsRecorded(m: Machine, step: Step, key: Key)
    requires Sound(m) && step.Deliver? && Completion?(step.hook) && Admit(step.hook, step.inspection) == Some(key)
    ensures var n := Next(m, step);
            && (!Completes(m, step.hook, key) ==> n.registry == m.registry)
            && (Completes(m, step.hook, key) ==>
                  && key in n.registry.cells && n.registry.cells[key].obs.updatedAt == step.now
                  && Tells(n.registry.cells[key].obs, Some(step.hook), key.agent) && Matches(n.registry.cells[key].obs, step.hook)
                  && (step.hook.event == TurnComplete ==>
                        n.registry.cells[key].obs.completionSequence == step.hook.completionSequence))
            && (NoTurn(m, step.hook, key) ==>
                  n.nextCall == m.nextCall + 1 && m.nextCall in n.calls
                  && n.calls[m.nextCall] == Suspended(key, step.hook, StampAt(m.registry, key)))
            && (!NoTurn(m, step.hook, key) ==> n.calls == m.calls && n.nextCall == m.nextCall)
  {
  }

  /** Once resumed, it is recorded exactly when the binding still stands, its sequence is positive if it has one, and the
      entry is the object it found, or there still is none. */
  lemma RecoveryIsRecorded(m: Machine, step: Step)
    requires Sound(m) && step.Continue? && step.call in m.calls
    ensures var s := m.calls[step.call];
            var recorded := && step.bound && StampAt(m.registry, s.key) == s.prior
                            && (s.hook.completionSequence.Some? ==> s.hook.completionSequence.value > 0);
            && (!recorded ==> Next(m, step).registry == m.registry)
            && (recorded ==>
                  && s.key in Next(m, step).registry.cells
                  && var obs := Next(m, step).registry.cells[s.key].obs;
                     Tells(obs, Some(s.hook), s.key.agent) && Matches(obs, s.hook) && obs.updatedAt == step.now)
  {
  }

  /** A human confirmation is recorded exactly when nothing is known and nothing was shown, or an uncertain phase was shown as
      it was last seen. It starts anew from that time, with no session and no turn. */
  lemma ConfirmationIsRecorded(m: Machine, step: Step)
    requires Sound(m) && step.Acknowledge?
    ensures var shown := if step.key in m.registry.cells
                         then m.registry.cells[step.key].obs.phase == Uncertain
                              && step.expectedUpdatedAt == Some(m.registry.cells[step.key].obs.updatedAt)
                         else step.expectedUpdatedAt == None;
            var n := Next(m, step).registry;
            && (step.key.cliPid == "" || !shown ==> n == m.registry)
            && (step.key.cliPid != "" && shown ==>
                  step.key in n.cells && n.cells[step.key].obs == Obs("", "", step.now, Ready, step.now, false, true, None, None))
  {
  }

  // ---- Runs ----

  /** Step i is the last that wrote the entry. */
  ghost predicate LastWrote(steps: seq<Step>, key: Key, i: nat) {
    && i < |steps| && key in Run(steps).registry.cells && Touches(Run(steps[..i]), steps[i], key)
    && (forall j | i < j <= |steps| :: key in Run(steps[..j]).registry.cells
                                      && Run(steps[..j]).registry.cells[key] == Run(steps).registry.cells[key])
  }

  function Writer(steps: seq<Step>, key: Key, i: nat): Option<Hook>
    requires i < |steps|
  {
    Applied(Run(steps[..i]), steps[i], key)
  }

  lemma StillLast(steps: seq<Step>, key: Key, i: nat)
    requires steps != [] && LastWrote(steps[..|steps| - 1], key, i)
    requires key in Run(steps).registry.cells
    requires Run(steps).registry.cells[key] == Run(steps[..|steps| - 1]).registry.cells[key]
    ensures LastWrote(steps, key, i)
  {
    var before := steps[..|steps| - 1];
    assert before[..i] == steps[..i] && before[i] == steps[i];
    forall j | i < j <= |steps|
      ensures key in Run(steps[..j]).registry.cells && Run(steps[..j]).registry.cells[key] == Run(steps).registry.cells[key]
    {
      if j < |steps| {
        assert before[..j] == steps[..j];
      } else {
        assert steps[..j] == steps;
      }
    }
  }

  lemma {:induction false} SomeStepWrote(steps: seq<Step>, key: Key) returns (i: nat)
    requires key in Run(steps).registry.cells
    ensures LastWrote(steps, key, i)
  {
    var before, step := steps[..|steps| - 1], steps[|steps| - 1];
    var m, n := Run(before), Run(steps);
    assert steps[..|steps|] == steps;
    if key in m.registry.cells && n.registry.cells[key] == m.registry.cells[key] {
      i := SomeStepWrote(before, key);
      StillLast(steps, key, i);
    } else {
      i := |steps| - 1;
    }
  }

  /** After any run the phase of an entry, its finish and its background state are exactly what the hook that last wrote
      it says: idle if and only if that was the turn's settled completion, working if and only if it started the turn or
      Claude reported active work, interrupted if and only if it said so. */
  lemma PhaseIsTold(steps: seq<Step>, key: Key, i: nat)
    requires LastWrote(steps, key, i)
    ensures Tells(Run(steps).registry.cells[key].obs, Writer(steps, key, i), key.agent)
  {
    RunKeepsSound(steps[..i]);
    assert steps[..i + 1][..i] == steps[..i];
    assert Run(steps[..i + 1]) == Next(Run(steps[..i]), steps[i]);
    if steps[i].Deliver? {
      DeliveryTells(Run(steps[..i]), steps[i], key);
    } else {
      RecoveryTells(Run(steps[..i]), steps[i], key);
    }
  }

  // ---- Evidence for Git ----

  /** Step i wrote the exactly matching, settled completion with clear background work, and nothing has written since. */
  ghost predicate ClearedBy(steps: seq<Step>, key: Key, i: nat) {
    LastWrote(steps, key, i)
    && var hook := Writer(steps, key, i);
    hook.Some? && hook.value.event == TurnComplete && hook.value.settled && hook.value.backgroundState == Some(Clear)
    && Matches(Run(steps).registry.cells[key].obs, hook.value)
  }

  /** Step i wrote a startup, or the matching settled completion without active background work. */
  ghost predicate QuietBy(steps: seq<Step>, key: Key, i: nat) {
    LastWrote(steps, key, i)
    && var hook := Writer(steps, key, i);
    hook.Some?
    && (hook.value.event == SessionStarted
        || (hook.value.event == TurnComplete && hook.value.settled && hook.value.backgroundState != Some(Active)
            && Matches(Run(steps).registry.cells[key].obs, hook.value)))
  }

  /** In every run, an agent other than Codex is settled for Git if and only if the last step that wrote its entry applied
      the matching, settled completion with clear background work. */
  lemma ClaudeSettlesOnlyOnEvidence(steps: seq<Step>, key: Key)
    requires key.agent != Codex
    ensures SettledForGit(ObsAt(Run(steps).registry, key), key.agent) <==> exists i: nat :: ClearedBy(steps, key, i)
  {
    if key in Run(steps).registry.cells {
      var i := SomeStepWrote(steps, key);
      PhaseIsTold(steps, key, i);
      if SettledForGit(ObsAt(Run(steps).registry, key), key.agent) {
        assert ClearedBy(steps, key, i);
      }
      forall k: nat | ClearedBy(steps, key, k) {
        PhaseIsTold(steps, key, k);
      }
    }
  }

  /** Codex is settled for Git if and only if that step applied a startup, or the matching settled completion without
      active background work. */
  lemma CodexSettlesOnlyOnEvidence(steps: seq<Step>, key: Key)
    requires key.agent == Codex
    ensures SettledForGit(ObsAt(Run(steps).registry, key), Codex) <==> exists i: nat :: QuietBy(steps, key, i)
  {
    if key in Run(steps).registry.cells {
      var i := SomeStepWrote(steps, key);
      PhaseIsTold(steps, key, i);
      if SettledForGit(ObsAt(Run(steps).registry, key), Codex) {
        assert QuietBy(steps, key, i);
      }
      forall k: nat | QuietBy(steps, key, k) {
        PhaseIsTold(steps, key, k);
      }
    }
  }

  /** The observation a human confirmation installed is never evidence, for any CLI, as long as it stands. */
  lemma {:induction false} ConfirmationIsNeverEvidence(steps: seq<Step>, i: nat, key: Key)
    requires i < |steps| && steps[i].Acknowledge? && steps[i].key == key && key.cliPid != ""
    requires Confirmable(ObsAt(Run(steps[..i]).registry, key), steps[i].expectedUpdatedAt)
    ensures key in Run(steps).registry.cells
    ensures Run(steps[..i]).registry.next < Run(steps).registry.next
    ensures StampAt(Run(steps).registry, key) == Some(Run(steps[..i]).registry.next)
            ==> Run(steps).registry.cells[key].obs == Confirmed(steps[i].now)
                && forall agent :: !SettledForGit(ObsAt(Run(steps).registry, key), agent)
    decreases |steps|
  {
    var before, step := steps[..|steps| - 1], steps[|steps| - 1];
    var m := Run(before);
    RunKeepsSound(before);
    if i == |steps| - 1 {
      assert steps[..i] == before;
    } else {
      assert before[..i] == steps[..i];
      ConfirmationIsNeverEvidence(before, i, key);
    }
    StepMovesCells(m, step, key);
  }
}
