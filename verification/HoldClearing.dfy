/** Clearing acknowledged holds before an action: each step its own checked request, in order, the first failure stopping
    the rest. Every listed writer stops before any record is reconciled. */
module HoldClearing {
  import opened Options
  import opened NativeTerminals
  import opened WriterStop

  datatype Run = Run(id: string, commandId: string)
  datatype Holds = Holds(request: bool, runs: seq<Run>, delivery: Option<string>, manual: seq<ManualSession>)

  datatype Sent =
    | Takeover(runId: string, commandId: string)
    | Release(commandId: string)
    | Stop(request: StopRequest)
    | Reconcile(manualId: string, revision: nat)

  datatype Exchange = Exchange(request: Sent, answer: Answer<Receipt>)

  datatype Completed = ClearedWarning | EndedRun(run: Run) | ReleasedDelivery | StoppedTyping(connections: nat) | RecordedDecision

  /** A request of the plan, and what is reported once it is accepted. */
  datatype Planned = Planned(request: Sent, report: Completed)

  /** Whether all steps were done; if not, whether the last one's result is unknown. */
  datatype Outcome = Cleared | Interrupted(unknown: bool)

  /** The answer to the request of a given position. */
  type Server = (nat, Sent) -> Answer<Receipt>

  /** The live ones among the first `n` writers, in order. */
  function LiveOf(writers: seq<Writer>, n: nat): seq<Writer>
    requires n <= |writers|
  {
    if n == 0 then [] else LiveOf(writers, n - 1) + (if writers[n - 1].live then [writers[n - 1]] else [])
  }

  function Live(m: ManualSession): seq<Writer> {
    LiveOf(m.writers, |m.writers|)
  }

  // ---- The plan ----

  function TakeoverOf(run: Run): Planned {
    Planned(Takeover(run.id, run.commandId), EndedRun(run))
  }

  function Takeovers(runs: seq<Run>): seq<Planned> {
    seq(|runs|, i requires 0 <= i < |runs| => TakeoverOf(runs[i]))
  }

  function Releases(delivery: Option<string>): seq<Planned> {
    if delivery.Some? then [Planned(Release(delivery.value), ReleasedDelivery)] else []
  }

  function StopOf(m: ManualSession): Planned {
    Planned(Stop(Asking(m, Live(m))), StoppedTyping(|Live(m)|))
  }

  /** The stops of the first `n` records: one for each that has live writers. */
  function Stops(manual: seq<ManualSession>, n: nat): seq<Planned>
    requires n <= |manual|
  {
    if n == 0 then [] else Stops(manual, n - 1) + (if Live(manual[n - 1]) == [] then [] else [StopOf(manual[n - 1])])
  }

  function ReconcileOf(m: ManualSession): Planned {
    Planned(Reconcile(m.id, m.revision), RecordedDecision)
  }

  function Reconciles(settled: seq<ManualSession>): seq<Planned> {
    seq(|settled|, i requires 0 <= i < |settled| => ReconcileOf(settled[i]))
  }

  function BeforeStops(h: Holds): seq<Planned> {
    Takeovers(h.runs) + Releases(h.delivery)
  }

  function BeforeReconciling(h: Holds): seq<Planned> {
    BeforeStops(h) + Stops(h.manual, |h.manual|)
  }

  function Plan(h: Holds, settled: seq<ManualSession>): seq<Planned> {
    BeforeReconciling(h) + Reconciles(settled)
  }

  // ---- What has been performed ----

  predicate Accepts(request: Sent, answer: Answer<Receipt>) {
    answer.Success? && (request.Stop? ==> Matching(request.request, answer.value))
  }

  function Warning(h: Holds): seq<Completed> {
    if h.request then [ClearedWarning] else []
  }

  function Reports(plan: seq<Planned>, n: nat): seq<Completed>
    requires n <= |plan|
  {
    seq(n, i requires 0 <= i < n => plan[i].report)
  }

  predicate Asked(history: seq<Exchange>, k: nat, request: Sent, server: Server)
    requires k < |history|
  {
    history[k].request == request && history[k].answer == server(k, request)
  }

  /** The first `n` items were requested in order, each accepted; they, and nothing else, are reported. */
  ghost predicate Performed(h: Holds, plan: seq<Planned>, n: nat, history: seq<Exchange>, done: seq<Completed>, server: Server)
    requires n <= |plan| && n <= |history|
  {
    && done == Warning(h) + Reports(plan, n)
    && forall k {:trigger Asked(history, k, plan[k].request, server)} :: 0 <= k < n ==>
         Asked(history, k, plan[k].request, server) && Accepts(plan[k].request, history[k].answer)
  }

  /** All requests made so far are the first of the plan, and were accepted. */
  ghost predicate Going(h: Holds, plan: seq<Planned>, history: seq<Exchange>, done: seq<Completed>, server: Server) {
    |history| <= |plan| && Performed(h, plan, |history|, history, done, server)
  }

  /** Everything before the last request was performed as planned; that one was planned next and was not accepted. */
  ghost predicate Failed(h: Holds, plan: seq<Planned>, history: seq<Exchange>, done: seq<Completed>, server: Server) {
    var n := |history| - 1;
    && 0 <= n < |plan| && Performed(h, plan, n, history, done, server)
    && Asked(history, n, plan[n].request, server) && !Accepts(plan[n].request, history[n].answer)
  }

  /** The record after its stop: what the matching receipt says, or unchanged if it had no live writer. */
  ghost predicate Settled(m: ManualSession, settled: ManualSession, history: seq<Exchange>) {
    if Live(m) == [] then settled == m else exists k :: 0 <= k < |history| && SettledBy(history[k], m, settled)
  }

  predicate SettledBy(e: Exchange, m: ManualSession, settled: ManualSession) {
    && e.request == StopOf(m).request && Accepts(e.request, e.answer)
    && e.answer.value.writers.Some? && settled == Session(e.answer.value)
  }

  /** The records settled so far, in the order listed. */
  ghost predicate Settling(manual: seq<ManualSession>, settled: seq<ManualSession>, history: seq<Exchange>) {
    && |settled| <= |manual|
    && forall i {:trigger Settled(manual[i], settled[i], history)} :: 0 <= i < |settled| ==> Settled(manual[i], settled[i], history)
  }

  lemma SettledLater(manual: seq<ManualSession>, settled: seq<ManualSession>, history: seq<Exchange>, e: Exchange)
    requires Settling(manual, settled, history)
    ensures Settling(manual, settled, history + [e])
  {
    var longer := history + [e];
    forall i | 0 <= i < |settled|
      ensures Settled(manual[i], settled[i], longer)
    {
      assert Settled(manual[i], settled[i], history);
      if Live(manual[i]) != [] {
        var k :| 0 <= k < |history| && SettledBy(history[k], manual[i], settled[i]);
        assert longer[k] == history[k];
      }
    }
  }

  lemma OneMoreSettled(manual: seq<ManualSession>, settled: seq<ManualSession>, s: ManualSession, history: seq<Exchange>)
    requires Settling(manual, settled, history) && |settled| < |manual| && Settled(manual[|settled|], s, history)
    ensures Settling(manual, settled + [s], history)
  {
    var more := settled + [s];
    forall i | 0 <= i < |more|
      ensures Settled(manual[i], more[i], history)
    {
      if i < |settled| {
        assert Settled(manual[i], settled[i], history);
      }
    }
  }

  lemma StopSettles(manual: seq<ManualSession>, settled: seq<ManualSession>, history: seq<Exchange>, e: Exchange)
    requires Settling(manual, settled, history) && |settled| < |manual| && Live(manual[|settled|]) != []
    requires e.request == StopOf(manual[|settled|]).request && Accepts(e.request, e.answer)
    ensures Settling(manual, settled + [Session(e.answer.value)], history + [e])
  {
    SettledLater(manual, settled, history, e);
    assert SettledBy((history + [e])[|history|], manual[|settled|], Session(e.answer.value));
    OneMoreSettled(manual, settled, Session(e.answer.value), history + [e]);
  }

  // ---- Where the items stand ----

  lemma TakeoverPlanned(h: Holds, i: nat)
    requires i < |h.runs|
    ensures i < |BeforeReconciling(h)| && BeforeReconciling(h)[i] == TakeoverOf(h.runs[i])
  {
  }

  lemma ReleasePlanned(h: Holds)
    requires h.delivery.Some?
    ensures |h.runs| < |BeforeReconciling(h)|
    ensures BeforeReconciling(h)[|h.runs|] == Planned(Release(h.delivery.value), ReleasedDelivery)
  {
  }

  lemma {:induction false} StopListed(manual: seq<ManualSession>, i: nat, n: nat)
    requires i < n <= |manual| && Live(manual[i]) != []
    ensures |Stops(manual, i)| < |Stops(manual, n)| && Stops(manual, n)[|Stops(manual, i)|] == StopOf(manual[i])
    decreases n
  {
    if i < n - 1 {
      StopListed(manual, i, n - 1);
    }
  }

  lemma StopPlanned(h: Holds, i: nat)
    requires i < |h.manual| && Live(h.manual[i]) != []
    ensures |BeforeStops(h)| + |Stops(h.manual, i)| < |BeforeReconciling(h)|
    ensures BeforeReconciling(h)[|BeforeStops(h)| + |Stops(h.manual, i)|] == StopOf(h.manual[i])
  {
    StopListed(h.manual, i, |h.manual|);
  }

  lemma ReconcilePlanned(h: Holds, settled: seq<ManualSession>, i: nat)
    requires i < |settled|
    ensures |BeforeReconciling(h)| + i < |Plan(h, settled)|
    ensures Plan(h, settled)[|BeforeReconciling(h)| + i] == ReconcileOf(settled[i])
  {
  }

  lemma FrontPlanned(h: Holds, settled: seq<ManualSession>, k: nat)
    requires k < |BeforeReconciling(h)|
    ensures k < |Plan(h, settled)| && Plan(h, settled)[k] == BeforeReconciling(h)[k]
  {
  }

  // ---- The steps ----

  /** One request: accepted, it is reported. */
  method Ask(h: Holds, item: Planned, history: seq<Exchange>, done: seq<Completed>, server: Server, ghost plan: seq<Planned>)
    returns (history': seq<Exchange>, done': seq<Completed>, e: Exchange)
    requires Going(h, plan, history, done, server) && |history| < |plan| && plan[|history|] == item
    ensures history' == history + [e] && e.request == item.request
    ensures Accepts(item.request, e.answer) ==> Going(h, plan, history', done', server)
    ensures !Accepts(item.request, e.answer) ==> Failed(h, plan, history', done', server)
  {
    e := Exchange(item.request, server(|history|, item.request));
    history' := history + [e];
    done' := done;
    forall k | 0 <= k < |history|
      ensures Asked(history', k, plan[k].request, server) && Accepts(plan[k].request, history'[k].answer)
    {
      assert Asked(history, k, plan[k].request, server);
    }
    if Accepts(item.request, e.answer) {
      done' := done + [item.report];
      assert Reports(plan, |history'|) == Reports(plan, |history|) + [item.report];
    }
  }

  method EndRuns(h: Holds, server: Server) returns (history: seq<Exchange>, done: seq<Completed>, ok: bool)
    ensures ok ==> Going(h, BeforeReconciling(h), history, done, server) && |history| == |h.runs|
    ensures !ok ==> Failed(h, BeforeReconciling(h), history, done, server)
  {
    history, done := [], Warning(h);
    for i := 0 to |h.runs|
      invariant Going(h, BeforeReconciling(h), history, done, server) && |history| == i
    {
      TakeoverPlanned(h, i);
      var e;
      history, done, e := Ask(h, TakeoverOf(h.runs[i]), history, done, server, BeforeReconciling(h));
      if !Accepts(e.request, e.answer) {
        return history, done, false;
      }
    }
    ok := true;
  }

  method ReleaseDelivery(h: Holds, before: seq<Exchange>, reported: seq<Completed>, server: Server)
    returns (history: seq<Exchange>, done: seq<Completed>, ok: bool)
    requires Going(h, BeforeReconciling(h), before, reported, server) && |before| == |h.runs|
    ensures ok ==> Going(h, BeforeReconciling(h), history, done, server) && |history| == |BeforeStops(h)|
    ensures !ok ==> Failed(h, BeforeReconciling(h), history, done, server)
  {
    history, done, ok := before, reported, true;
    if h.delivery.Some? {
      ReleasePlanned(h);
      var e;
      var item := Planned(Release(h.delivery.value), ReleasedDelivery);
      history, done, e := Ask(h, item, history, done, server, BeforeReconciling(h));
      ok := Accepts(e.request, e.answer);
    }
  }

  /** Stops the live writers of the next record. */
  method StopNext(h: Holds, history: seq<Exchange>, done: seq<Completed>, settled: seq<ManualSession>, server: Server)
    returns (history': seq<Exchange>, done': seq<Completed>, settled': seq<ManualSession>, ok: bool)
    requires |settled| < |h.manual| && Live(h.manual[|settled|]) != []
    requires Going(h, BeforeReconciling(h), history, done, server) && |history| == |BeforeStops(h)| + |Stops(h.manual, |settled|)|
    requires Settling(h.manual, settled, history)
    ensures ok ==> Going(h, BeforeReconciling(h), history', done', server) && Settling(h.manual, settled', history')
    ensures ok ==> |settled'| == |settled| + 1 && |history'| == |BeforeStops(h)| + |Stops(h.manual, |settled'|)|
    ensures !ok ==> Failed(h, BeforeReconciling(h), history', done', server) && |history'| <= |BeforeReconciling(h)|
  {
    var m := h.manual[|settled|];
    StopPlanned(h, |settled|);
    var e;
    history', done', e := Ask(h, StopOf(m), history, done, server, BeforeReconciling(h));
    settled' := settled;
    ok := Accepts(e.request, e.answer);
    if ok {
      settled' := settled + [Session(e.answer.value)];
      StopSettles(h.manual, settled, history, e);
    }
  }

  method StopAll(h: Holds, before: seq<Exchange>, reported: seq<Completed>, server: Server)
    returns (history: seq<Exchange>, done: seq<Completed>, settled: seq<ManualSession>, ok: bool)
    requires Going(h, BeforeReconciling(h), before, reported, server) && |before| == |BeforeStops(h)|
    ensures ok ==> Going(h, BeforeReconciling(h), history, done, server) && |history| == |BeforeReconciling(h)|
    ensures ok ==> Settling(h.manual, settled, history) && |settled| == |h.manual|
    ensures !ok ==> Failed(h, BeforeReconciling(h), history, done, server)
  {
    history, done, settled, ok := before, reported, [], true;
    for i := 0 to |h.manual|
      invariant Going(h, BeforeReconciling(h), history, done, server) && |history| == |BeforeStops(h)| + |Stops(h.manual, i)|
      invariant Settling(h.manual, settled, history) && |settled| == i && ok
    {
      if Live(h.manual[i]) == [] {
        OneMoreSettled(h.manual, settled, h.manual[i], history);
        settled := settled + [h.manual[i]];
      } else {
        history, done, settled, ok := StopNext(h, history, done, settled, server);
        if !ok { return; }
      }
    }
  }

  /** What was performed of the first part of a plan was performed of the whole plan. */
  lemma PerformedLonger(h: Holds, front: seq<Planned>, plan: seq<Planned>, n: nat, history: seq<Exchange>, done: seq<Completed>,
                        server: Server)
    requires n <= |history| && n <= |front| <= |plan| && (forall k :: 0 <= k < |front| ==> plan[k] == front[k])
    requires Performed(h, front, n, history, done, server)
    ensures Performed(h, plan, n, history, done, server)
  {
    assert Reports(plan, n) == Reports(front, n);
    forall k | 0 <= k < n
      ensures Asked(history, k, plan[k].request, server) && Accepts(plan[k].request, history[k].answer)
    {
      assert Asked(history, k, front[k].request, server);
    }
  }

  lemma WholePlan(h: Holds, settled: seq<ManualSession>, history: seq<Exchange>, done: seq<Completed>, server: Server)
    ensures Going(h, BeforeReconciling(h), history, done, server) ==> Going(h, Plan(h, settled), history, done, server)
    ensures Failed(h, BeforeReconciling(h), history, done, server) ==> Failed(h, Plan(h, settled), history, done, server)
  {
    var front, plan, n := BeforeReconciling(h), Plan(h, settled), |history| - 1;
    forall k | 0 <= k < |front|
      ensures plan[k] == front[k]
    {
      FrontPlanned(h, settled, k);
    }
    if Going(h, front, history, done, server) {
      PerformedLonger(h, front, plan, |history|, history, done, server);
    }
    if Failed(h, front, history, done, server) {
      PerformedLonger(h, front, plan, n, history, done, server);
    }
  }

  method ReconcileAll(h: Holds, before: seq<Exchange>, reported: seq<Completed>, settled: seq<ManualSession>, server: Server)
    returns (history: seq<Exchange>, done: seq<Completed>, ok: bool)
    requires Going(h, BeforeReconciling(h), before, reported, server) && |before| == |BeforeReconciling(h)|
    requires Settling(h.manual, settled, before)
    ensures Settling(h.manual, settled, history)
    ensures ok ==> Going(h, Plan(h, settled), history, done, server) && |history| == |Plan(h, settled)|
    ensures !ok ==> Failed(h, Plan(h, settled), history, done, server)
  {
    history, done, ok := before, reported, true;
    WholePlan(h, settled, history, done, server);
    for i := 0 to |settled|
      invariant Going(h, Plan(h, settled), history, done, server) && |history| == |BeforeReconciling(h)| + i
      invariant Settling(h.manual, settled, history) && ok
    {
      ReconcilePlanned(h, settled, i);
      ghost var was := history;
      var e;
      history, done, e := Ask(h, ReconcileOf(settled[i]), history, done, server, Plan(h, settled));
      SettledLater(h.manual, settled, was, e);
      if !Accepts(e.request, e.answer) {
        return history, done, false;
      }
    }
  }

  /** How a clearing went: all of the plan was performed, or all of it up to the one request not accepted. Reconciling starts
      only once every record is settled. */
  ghost predicate Went(h: Holds, history: seq<Exchange>, done: seq<Completed>, settled: seq<ManualSession>, server: Server, outcome: Outcome) {
    && (outcome.Cleared? || |history| > |BeforeReconciling(h)| ==> Settling(h.manual, settled, history) && |settled| == |h.manual|)
    && match outcome
       case Cleared => Going(h, Plan(h, settled), history, done, server) && |history| == |Plan(h, settled)|
       case Interrupted(unknown) =>
         Failed(h, Plan(h, settled), history, done, server) && (unknown <==> !history[|history| - 1].answer.Refused?)
  }

  method ClearHolds(h: Holds, server: Server)
    returns (history: seq<Exchange>, done: seq<Completed>, settled: seq<ManualSession>, outcome: Outcome)
    ensures Went(h, history, done, settled, server, outcome)
  {
    var ok;
    settled := [];
    history, done, ok := EndRuns(h, server);
    if ok {
      history, done, ok := ReleaseDelivery(h, history, done, server);
    }
    if ok {
      history, done, settled, ok := StopAll(h, history, done, server);
    }
    if ok {
      history, done, ok := ReconcileAll(h, history, done, settled, server);
    } else {
      WholePlan(h, settled, history, done, server);
    }
    outcome := if ok then Cleared else Interrupted(!history[|history| - 1].answer.Refused?);
  }
}
