/** The tracker as the source has it: a map of mutable observation objects, changed in place by `record` and replaced
    by new objects. Every method is proved to do to the registry exactly what the rules say. */
module ActivityTracker {
  import opened Options
  import opened TurnRules
  import opened TurnRegistry

  class Observation {
    const sessionId: string
    const sourceTurnId: string
    const startedAt: int
    var phase: Phase
    var updatedAt: int
    var finished: bool
    const humanConfirmed: bool
    var completionSequence: Option<int>
    var backgroundState: Option<Background>
    /** Position among all observations ever created: the object's identity, as a number. */
    ghost const stamp: nat
    ghost const key: Key

    constructor (obs: Obs, ghost key: Key, ghost stamp: nat)
      ensures View() == obs && this.key == key && this.stamp == stamp
    {
      sessionId, sourceTurnId, startedAt := obs.sessionId, obs.sourceTurnId, obs.startedAt;
      phase, updatedAt, finished, humanConfirmed := obs.phase, obs.updatedAt, obs.finished, obs.humanConfirmed;
      completionSequence, backgroundState := obs.completionSequence, obs.backgroundState;
      this.key, this.stamp := key, stamp;
    }

    function View(): Obs
      reads this
    {
      Obs(sessionId, sourceTurnId, startedAt, phase, updatedAt, finished, humanConfirmed, completionSequence, backgroundState)
    }

    /** The write at the end of `record`, shared by a matching completion and a recovered one. */
    method Complete(hook: Hook, now: int)
      modifies this
      ensures View() == Finish(old(View()), hook, now)
    {
      finished, updatedAt := true, now;
      backgroundState := hook.backgroundState;
      if hook.event == TurnInterrupted {
        phase := Interrupted;
        return;
      }
      phase := if hook.source == Claude && hook.backgroundState == Some(Active) then Working
               else if hook.settled && (hook.source == Codex || hook.backgroundState == Some(Clear)) then Idle
               else Uncertain;
      finished := phase == Idle;
      completionSequence := hook.completionSequence;
    }
  }

  /** A `record` call suspended at the binding check, holding the observation it found. */
  datatype Call = Call(key: Key, hook: Signal, prior: Observation?)

  class AgentActivityTracker {
    var observations: map<Key, Observation>
    ghost var issued: seq<Observation>
    /** The registry of the rules that this map of objects stands for. */
    ghost var registry: Registry

    ghost predicate Valid()
      reads this, observations.Values
    {
      && (forall i | 0 <= i < |issued| :: issued[i].stamp == i)
      && registry.next == |issued| && registry.cells.Keys == observations.Keys
      && (forall k | k in observations :: k.cliPid != "" && observations[k].key == k)
      && (forall k | k in observations :: observations[k].stamp < |issued| && issued[observations[k].stamp] == observations[k])
      && (forall k | k in observations :: registry.cells[k] == Cell(observations[k].stamp, observations[k].View()))
    }

    /** Observations are only ever added, and added ones are new. */
    twostate predicate Grown(before: seq<Observation>)
      reads this
    {
      before <= issued && forall i | |before| <= i < |issued| :: fresh(issued[i])
    }

    ghost predicate Issued(o: Observation)
      reads this
    {
      o.stamp < |issued| && issued[o.stamp] == o
    }

    ghost predicate ValidCall(call: Call)
      reads this
    {
      call.key.cliPid != "" && Completion?(call.hook) && (call.prior != null ==> Issued(call.prior))
    }

    static ghost function SuspendedCall(call: Call): Suspended {
      Suspended(call.key, call.hook, if call.prior == null then None else Some(call.prior.stamp))
    }

    constructor ()
      ensures Valid() && registry == Empty
    {
      observations, issued, registry := map[], [], Empty;
    }

    /** `observations.set(key, next)` for a new object. */
    method Put(key: Key, obs: Obs)
      requires Valid() && key.cliPid != ""
      modifies this
      ensures Valid() && Grown(old(issued))
      ensures registry == Install(old(registry), key, obs)
    {
      var next := new Observation(obs, key, |issued|);
      observations := observations[key := next];
      issued := issued + [next];
      registry := Install(registry, key, obs);
      forall k | k in observations
        ensures observations[k].stamp < |issued| && issued[observations[k].stamp] == observations[k] && observations[k].key == k
        ensures registry.cells[k] == Cell(observations[k].stamp, observations[k].View())
      {
        if k != key {
          assert observations[k] == old(observations[k]) && observations[k] in old(observations).Values;
        }
      }
    }

    method CompleteInPlace(key: Key, completion: Observation, hook: Hook, now: int)
      requires Valid() && key in observations && observations[key] == completion
      modifies this`registry, completion
      ensures Valid()
      ensures registry == Apply(old(registry), key, Mutate(Finish(old(completion.View()), hook, now)))
    {
      completion.Complete(hook, now);
      registry := registry.(cells := registry.cells[key := Cell(completion.stamp, completion.View())]);
    }

    /** `record` up to its await, which a completion that matches no observed turn reaches. */
    method Record(hook: Hook, inspection: Option<Inspection>, now: int) returns (call: Option<Call>)
      requires Valid()
      modifies this, observations.Values
      ensures Valid() && Grown(old(issued))
      ensures Admit(hook, inspection).None? ==> call == None && registry == old(registry)
      ensures Admit(hook, inspection).Some? ==>
                var (r, s) := Begin(old(registry), Admit(hook, inspection).value, hook, now);
                && registry == r
                && (call.Some? <==> s.Some?)
                && (call.Some? ==> ValidCall(call.value) && SuspendedCall(call.value) == s.value)
    {
      var admitted := Admit(hook, inspection);
      if admitted.None? { return None; }
      call := Observe(admitted.value, hook, now);
    }

    /** `record` for an admitted hook: startups and turn starts here, completions below. */
    method Observe(key: Key, hook: Signal, now: int) returns (call: Option<Call>)
      requires Valid() && hook.event != Outcome && key.cliPid != ""
      modifies this, observations.Values
      ensures Valid() && Grown(old(issued))
      ensures var (r, s) := Begin(old(registry), key, hook, now);
              && registry == r
              && (call.Some? <==> s.Some?)
              && (call.Some? ==> ValidCall(call.value) && SuspendedCall(call.value) == s.value)
    {
      var prior: Observation? := if key in observations then observations[key] else null;
      if hook.event == SessionStarted {
        if prior == null { Put(key, Fresh(hook, Ready, now)); }
        return None;
      }
      if prior != null && prior.humanConfirmed && hook.startedAt.value <= prior.startedAt { return None; }
      if hook.event == TurnStarted {
        RecordStart(key, hook, prior, now);
        return None;
      }
      call := RecordCompletion(key, hook, prior, now);
    }

    /** A turn start: a duplicate or an earlier one leaves the observed turn alone. */
    method RecordStart(key: Key, hook: Signal, prior: Observation?, now: int)
      requires Valid() && hook.event == TurnStarted && key.cliPid != ""
      requires prior == if key in observations then observations[key] else null
      requires prior != null && prior.humanConfirmed ==> prior.startedAt < hook.startedAt.value
      modifies this
      ensures Valid() && Grown(old(issued))
      ensures Begin(old(registry), key, hook, now) == (registry, None)
    {
      var matches := prior != null && Matches(prior.View(), hook);
      if matches || (prior != null && prior.sourceTurnId != "" && hook.startedAt.value <= prior.startedAt) { return; }
      Put(key, Fresh(hook, Working, now));
    }

    /** The completion half of `record`: a matching completion is written at once, any other may await its binding. */
    method RecordCompletion(key: Key, hook: Signal, prior: Observation?, now: int) returns (call: Option<Call>)
      requires Valid() && Completion?(hook) && key.cliPid != ""
      requires prior == if key in observations then observations[key] else null
      requires prior != null && prior.humanConfirmed ==> prior.startedAt < hook.startedAt.value
      modifies this`registry, observations.Values
      ensures Valid()
      ensures var (r, s) := Begin(old(registry), key, hook, now);
              && registry == r
              && (call.Some? <==> s.Some?)
              && (call.Some? ==> ValidCall(call.value) && SuspendedCall(call.value) == s.value)
    {
      if prior == null || !Matches(prior.View(), hook) {
        if prior != null && (prior.sourceTurnId != "" || (prior.sessionId != "" && prior.sessionId != hook.sessionId)) { return None; }
        return Some(Call(key, hook, prior));
      }
      if prior.finished || Outdated(prior.View(), hook) { return None; }
      CompleteInPlace(key, prior, hook, now);
      return None;
    }

    /** `record` after its await: the sequence test, the object identity test, and the write. */
    method Continue(call: Call, bound: bool, now: int)
      requires Valid() && ValidCall(call)
      modifies this
      ensures Valid() && Grown(old(issued))
      ensures registry == Resume(old(registry), SuspendedCall(call), bound, now)
    {
      if !bound { return; }
      var completion := Fresh(call.hook, Uncertain, now);
      if Outdated(completion, call.hook) { return; }
      var current: Observation? := if call.key in observations then observations[call.key] else null;
      if current != call.prior { return; }
      Put(call.key, Finish(completion, call.hook, now));
    }

    /** False stands for the refusal ACTIVITY_CHANGED. */
    method ConfirmReady(key: Key, expectedUpdatedAt: Option<int>, now: int) returns (accepted: bool)
      requires Valid()
      modifies this
      ensures Valid() && Grown(old(issued))
      ensures (registry, accepted) == Confirm(old(registry), key, expectedUpdatedAt, now)
    {
      var state, updatedAt := Read(key);
      if key.cliPid == "" || state != Uncertain || updatedAt != expectedUpdatedAt { return false; }
      Put(key, Confirmed(now));
      return true;
    }

    method Read(key: Key) returns (state: Phase, updatedAt: Option<int>)
      requires Valid()
      ensures key !in observations ==> state == Uncertain && updatedAt == None
      ensures key in observations ==> state == observations[key].phase && updatedAt == Some(observations[key].updatedAt)
    {
      if key in observations { return observations[key].phase, Some(observations[key].updatedAt); }
      return Uncertain, None;
    }

    method SettledEvidence(key: Key, agent: Agent) returns (settled: bool)
      requires Valid()
      ensures settled == SettledForGit(ObsAt(registry, key), agent)
    {
      if key.cliPid == "" || key !in observations { return false; }
      var observed := observations[key];
      return !observed.humanConfirmed && observed.phase in {Idle, Ready}
             && (if agent == Codex then observed.backgroundState != Some(Active) else observed.backgroundState == Some(Clear));
    }
  }
}
