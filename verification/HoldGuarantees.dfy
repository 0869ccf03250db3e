/** What clearing holds promises, told by the requests sent and the receipts that answered them. */
module HoldGuarantees {
  import opened Options
  import opened NativeTerminals
  import opened WriterStop
  import opened HoldClearing

  predicate HasLive(m: ManualSession) {
    exists w :: w in m.writers && w.live
  }

  /** How many of the first `n` records have a live writer. */
  function Typing(manual: seq<ManualSession>, n: nat): nat
    requires n <= |manual|
  {
    if n == 0 then 0 else Typing(manual, n - 1) + (if HasLive(manual[n - 1]) then 1 else 0)
  }

  /** Where the stops begin, and where the reconciliations do. */
  function FirstStop(h: Holds): nat {
    |h.runs| + (if h.delivery.Some? then 1 else 0)
  }

  function FirstReconcile(h: Holds): nat {
    FirstStop(h) + Typing(h.manual, |h.manual|)
  }

  /** The request names the record at the boot and revision shown, and asks for each of its live writers, and no other. */
  ghost predicate AsksToStop(s: Sent, m: ManualSession) {
    && s.Stop? && s.request.manualId == m.id && s.request.bootId == m.bootId && s.request.revision == m.revision
    && ListsLive(s.request.writers, m.writers)
  }

  /** The listed writers are the live ones of all, each as often as it occurs. */
  ghost predicate ListsLive(listed: seq<Writer>, all: seq<Writer>) {
    forall w: Writer :: multiset(listed)[w] == if w.live then multiset(all)[w] else 0
  }

  predicate ListedAsEnded(w: Writer, listed: seq<Writer>) {
    exists s :: s in listed && s.connectionId == w.connectionId && s.generation == w.generation && !s.live
  }

  /** A receipt of the record that lists each of its live writers as no longer live. */
  predicate EndsWriters(r: Receipt, m: ManualSession) {
    && r.id == m.id && r.bootId == m.bootId && r.writers.Some?
    && forall w :: w in m.writers && w.live ==> ListedAsEnded(w, r.writers.value)
  }

  /** The record was asked to stop, and did. */
  ghost predicate StopConfirmed(e: Exchange, m: ManualSession) {
    AsksToStop(e.request, m) && e.answer.Success? && EndsWriters(e.answer.value, m)
  }

  // ---- The writers of one record ----

  lemma {:induction false} LiveIsFilter(writers: seq<Writer>, n: nat)
    requires n <= |writers|
    ensures ListsLive(LiveOf(writers, n), writers[..n])
  {
    if n > 0 {
      LiveIsFilter(writers, n - 1);
      assert writers[..n] == writers[..n - 1] + [writers[n - 1]];
    }
  }

  lemma LiveMembers(m: ManualSession)
    ensures ListsLive(Live(m), m.writers)
    ensures forall w :: w in Live(m) <==> w in m.writers && w.live
  {
    LiveIsFilter(m.writers, |m.writers|);
    assert m.writers[..|m.writers|] == m.writers;
    assert forall w: Writer :: w in Live(m) <==> multiset(Live(m))[w] > 0;
    assert forall w: Writer :: w in m.writers <==> multiset(m.writers)[w] > 0;
  }

  lemma LiveIffAny(m: ManualSession)
    ensures HasLive(m) <==> Live(m) != []
  {
    LiveMembers(m);
    if Live(m) != [] {
      assert Live(m)[0] in Live(m);
    }
  }

  lemma StopAsks(m: ManualSession)
    ensures AsksToStop(StopOf(m).request, m)
  {
    LiveMembers(m);
  }

  lemma AllEnded(m: ManualSession, listed: seq<Writer>)
    ensures var live := Live(m);
            (forall i :: 0 <= i < |live| ==> Ended(live[i], listed)) <==> (forall w :: w in m.writers && w.live ==> ListedAsEnded(w, listed))
  {
    var live := Live(m);
    LiveMembers(m);
    forall w | w in live
      ensures Ended(w, listed) <==> ListedAsEnded(w, listed)
    {
      EndedIsListed(w, listed);
    }
    if forall w :: w in m.writers && w.live ==> ListedAsEnded(w, listed) {
      forall i | 0 <= i < |live|
        ensures Ended(live[i], listed)
      {
        assert live[i] in live;
      }
    }
    if forall i :: 0 <= i < |live| ==> Ended(live[i], listed) {
      forall w | w in m.writers && w.live
        ensures ListedAsEnded(w, listed)
      {
        var i :| 0 <= i < |live| && live[i] == w;
      }
    }
  }

  /** What counts as an accepted stop: a receipt that ends every live writer of the record. */
  lemma AcceptedStopEnds(m: ManualSession, e: Exchange)
    requires e.request == StopOf(m).request
    ensures Accepts(e.request, e.answer) <==> StopConfirmed(e, m)
  {
    StopAsks(m);
    if e.answer.Success? && e.answer.value.writers.Some? {
      AllEnded(m, e.answer.value.writers.value);
      assert Matching(Asking(m, Live(m)), e.answer.value) <==> EndsWriters(e.answer.value, m);
    }
  }

  // ---- The requests ----

  lemma {:induction false} StopsCount(manual: seq<ManualSession>, n: nat)
    requires n <= |manual|
    ensures |Stops(manual, n)| == Typing(manual, n)
  {
    if n > 0 {
      StopsCount(manual, n - 1);
      LiveIffAny(manual[n - 1]);
    }
  }

  lemma FrontCount(h: Holds)
    ensures |BeforeStops(h)| == FirstStop(h) && |BeforeReconciling(h)| == FirstReconcile(h)
  {
    StopsCount(h.manual, |h.manual|);
  }

  lemma InPlace(h: Holds, history: seq<Exchange>, done: seq<Completed>, settled: seq<ManualSession>, server: Server,
                outcome: Outcome, k: nat)
    requires Went(h, history, done, settled, server, outcome) && k < |history|
    ensures k < |Plan(h, settled)| && history[k].request == Plan(h, settled)[k].request
  {
    if outcome.Cleared? || k + 1 < |history| {
      assert Asked(history, k, Plan(h, settled)[k].request, server);
    }
  }

  /** Runs are taken over first, each by its id and command, and then the older delivery is released by its command. */
  lemma RunsAndDeliveryFirst(h: Holds, history: seq<Exchange>, done: seq<Completed>, settled: seq<ManualSession>, server: Server,
                             outcome: Outcome, k: nat)
    requires Went(h, history, done, settled, server, outcome) && k < |history| && k < FirstStop(h)
    ensures history[k].request == if k < |h.runs| then Takeover(h.runs[k].id, h.runs[k].commandId) else Release(h.delivery.value)
  {
    InPlace(h, history, done, settled, server, outcome, k);
    if k < |h.runs| {
      TakeoverPlanned(h, k);
    } else {
      ReleasePlanned(h);
    }
    FrontCount(h);
    FrontPlanned(h, settled, k);
  }

  lemma StopSent(h: Holds, history: seq<Exchange>, done: seq<Completed>, settled: seq<ManualSession>, server: Server,
                 outcome: Outcome, i: nat)
    requires Went(h, history, done, settled, server, outcome) && i < |h.manual| && HasLive(h.manual[i])
    requires FirstStop(h) + Typing(h.manual, i) < |history|
    ensures history[FirstStop(h) + Typing(h.manual, i)].request == StopOf(h.manual[i]).request
    ensures FirstStop(h) + Typing(h.manual, i) < FirstReconcile(h)
  {
    var k := FirstStop(h) + Typing(h.manual, i);
    FrontCount(h);
    LiveIffAny(h.manual[i]);
    StopsCount(h.manual, i);
    StopPlanned(h, i);
    FrontPlanned(h, settled, k);
    InPlace(h, history, done, settled, server, outcome, k);
  }

  /** Then each record with a live writer is asked to stop, in the order listed. */
  lemma ThenEveryStop(h: Holds, history: seq<Exchange>, done: seq<Completed>, settled: seq<ManualSession>, server: Server,
                      outcome: Outcome, i: nat)
    requires Went(h, history, done, settled, server, outcome) && i < |h.manual| && HasLive(h.manual[i])
    requires FirstStop(h) + Typing(h.manual, i) < |history|
    ensures AsksToStop(history[FirstStop(h) + Typing(h.manual, i)].request, h.manual[i])
    ensures FirstStop(h) + Typing(h.manual, i) < FirstReconcile(h)
  {
    StopSent(h, history, done, settled, server, outcome, i);
    StopAsks(h.manual[i]);
  }

  // ---- The answers ----

  /** The one request that was not accepted, if there is one. */
  predicate IsFailure(history: seq<Exchange>, outcome: Outcome, k: nat) {
    outcome.Interrupted? && k + 1 == |history|
  }

  lemma AcceptedUnlessLast(h: Holds, history: seq<Exchange>, done: seq<Completed>, settled: seq<ManualSession>, server: Server,
                           outcome: Outcome, k: nat)
    requires Went(h, history, done, settled, server, outcome) && k < |history|
    ensures history[k].answer == server(k, history[k].request)
    ensures Accepts(history[k].request, history[k].answer) <==> !IsFailure(history, outcome, k)
  {
    assert !IsFailure(history, outcome, k) ==> Asked(history, k, Plan(h, settled)[k].request, server);
  }

  lemma StopAnswered(h: Holds, history: seq<Exchange>, done: seq<Completed>, settled: seq<ManualSession>, server: Server,
                     outcome: Outcome, i: nat)
    requires Went(h, history, done, settled, server, outcome) && i < |h.manual| && HasLive(h.manual[i])
    requires FirstStop(h) + Typing(h.manual, i) < |history|
    ensures var k := FirstStop(h) + Typing(h.manual, i); StopConfirmed(history[k], h.manual[i]) <==> !IsFailure(history, outcome, k)
  {
    var k := FirstStop(h) + Typing(h.manual, i);
    AcceptedUnlessLast(h, history, done, settled, server, outcome, k);
    StopSent(h, history, done, settled, server, outcome, i);
    AcceptedStopEnds(h.manual[i], history[k]);
  }

  /** Every request but the last succeeded, and every stop but the last ended all writers of its record; the last one did so
      exactly if the holds are cleared. What failed is reported as definite exactly if the server refused it. */
  lemma OnlyTheLastMayFail(h: Holds, history: seq<Exchange>, done: seq<Completed>, settled: seq<ManualSession>, server: Server,
                           outcome: Outcome, k: nat)
    requires Went(h, history, done, settled, server, outcome) && k < |history|
    ensures !history[k].request.Stop? ==> (history[k].answer.Success? <==> !IsFailure(history, outcome, k))
    ensures forall i | 0 <= i < |h.manual| && HasLive(h.manual[i]) && k == FirstStop(h) + Typing(h.manual, i) ::
              StopConfirmed(history[k], h.manual[i]) <==> !IsFailure(history, outcome, k)
    ensures IsFailure(history, outcome, k) ==> (outcome.unknown <==> !history[k].answer.Refused?)
  {
    AcceptedUnlessLast(h, history, done, settled, server, outcome, k);
    forall i | 0 <= i < |h.manual| && HasLive(h.manual[i]) && k == FirstStop(h) + Typing(h.manual, i)
      ensures StopConfirmed(history[k], h.manual[i]) <==> !IsFailure(history, outcome, k)
    {
      StopAnswered(h, history, done, settled, server, outcome, i);
    }
  }

  // ---- The reconciliations ----

  /** What a record is reconciled at: the revision of a receipt that ended its writers, or its own if none was live. */
  ghost predicate SettledAt(revision: nat, m: ManualSession, before: seq<Exchange>) {
    if HasLive(m) then exists k :: 0 <= k < |before| && StopConfirmed(before[k], m) && revision == before[k].answer.value.revision
    else revision == m.revision
  }

  lemma SettledHow(m: ManualSession, settled: ManualSession, history: seq<Exchange>)
    requires Settled(m, settled, history)
    ensures settled.id == m.id
    ensures if HasLive(m) then exists k :: 0 <= k < |history| && StopConfirmed(history[k], m) && settled.revision == history[k].answer.value.revision
            else settled.revision == m.revision
  {
    LiveIffAny(m);
    if HasLive(m) {
      var k :| 0 <= k < |history| && SettledBy(history[k], m, settled);
      AcceptedStopEnds(m, history[k]);
    }
  }

  lemma ReconcilesBegin(h: Holds, history: seq<Exchange>, done: seq<Completed>, settled: seq<ManualSession>, server: Server,
                        outcome: Outcome, k: nat)
    requires Went(h, history, done, settled, server, outcome) && k < |history|
    ensures history[k].request.Reconcile? <==> FirstReconcile(h) <= k
    ensures FirstReconcile(h) <= k ==>
              && k - FirstReconcile(h) < |settled| == |h.manual| && Settling(h.manual, settled, history)
              && history[k].request == ReconcileOf(settled[k - FirstReconcile(h)]).request
  {
    FrontCount(h);
    InPlace(h, history, done, settled, server, outcome, k);
    if k < FirstReconcile(h) {
      FrontPlanned(h, settled, k);
      FrontKinds(h, k);
    } else {
      ReconcilePlanned(h, settled, k - FirstReconcile(h));
    }
  }

  lemma FrontKinds(h: Holds, k: nat)
    requires k < |BeforeReconciling(h)|
    ensures !BeforeReconciling(h)[k].request.Reconcile?
  {
    if k >= |BeforeStops(h)| {
      StopReports(h.manual, |h.manual|, k - |BeforeStops(h)|);
    }
  }

  /** Reconciliations come last, one for each record in the order listed. Each names its record, at the revision of the
      receipt that ended its writers, or at its own if none was live. */
  lemma ReconcilesInOrder(h: Holds, history: seq<Exchange>, done: seq<Completed>, settled: seq<ManualSession>, server: Server,
                          outcome: Outcome, k: nat)
    requires Went(h, history, done, settled, server, outcome) && k < |history|
    ensures history[k].request.Reconcile? <==> FirstReconcile(h) <= k
    ensures FirstReconcile(h) <= k ==>
              && k - FirstReconcile(h) < |h.manual| && history[k].request.manualId == h.manual[k - FirstReconcile(h)].id
              && SettledAt(history[k].request.revision, h.manual[k - FirstReconcile(h)], history[..FirstReconcile(h)])
  {
    ReconcilesBegin(h, history, done, settled, server, outcome, k);
    if FirstReconcile(h) <= k {
      var i := k - FirstReconcile(h);
      assert Settled(h.manual[i], settled[i], history);
      SettledHow(h.manual[i], settled[i], history);
      if HasLive(h.manual[i]) {
        SettledEarly(h, history, done, settled, server, outcome, h.manual[i], settled[i].revision);
      }
    }
  }

  lemma SettledEarly(h: Holds, history: seq<Exchange>, done: seq<Completed>, settled: seq<ManualSession>, server: Server,
                     outcome: Outcome, m: ManualSession, revision: nat)
    requires Went(h, history, done, settled, server, outcome) && HasLive(m)
    requires exists k :: 0 <= k < |history| && StopConfirmed(history[k], m) && revision == history[k].answer.value.revision
    requires FirstReconcile(h) <= |history|
    ensures SettledAt(revision, m, history[..FirstReconcile(h)])
  {
    var k :| 0 <= k < |history| && StopConfirmed(history[k], m) && revision == history[k].answer.value.revision;
    ReconcilesBegin(h, history, done, settled, server, outcome, k);
    assert history[..FirstReconcile(h)][k] == history[k];
  }

  /** Before any record is reconciled, each record with a live writer, reconciled or not, was asked to stop, and the receipt
      lists every live writer of it as ended. */
  lemma ReconcilesOnlyAfterEveryStop(h: Holds, history: seq<Exchange>, done: seq<Completed>, settled: seq<ManualSession>, server: Server,
                                     outcome: Outcome, k: nat, i: nat)
    requires Went(h, history, done, settled, server, outcome)
    requires k < |history| && history[k].request.Reconcile? && i < |h.manual| && HasLive(h.manual[i])
    ensures FirstStop(h) + Typing(h.manual, i) < k && StopConfirmed(history[FirstStop(h) + Typing(h.manual, i)], h.manual[i])
  {
    ReconcilesBegin(h, history, done, settled, server, outcome, k);
    TypingGrows(h.manual, i, |h.manual|);
    StopAnswered(h, history, done, settled, server, outcome, i);
  }

  lemma {:induction false} TypingGrows(manual: seq<ManualSession>, i: nat, n: nat)
    requires i < n <= |manual| && HasLive(manual[i])
    ensures Typing(manual, i) < Typing(manual, n)
    decreases n
  {
    if i < n - 1 {
      TypingGrows(manual, i, n - 1);
    }
  }

  /** Nothing is requested beyond the last record; and the holds are cleared only after its reconciliation. */
  lemma ClearedIsEverything(h: Holds, history: seq<Exchange>, done: seq<Completed>, settled: seq<ManualSession>, server: Server,
                            outcome: Outcome)
    requires Went(h, history, done, settled, server, outcome)
    ensures |history| <= FirstReconcile(h) + |h.manual|
    ensures outcome.Cleared? ==> |history| == FirstReconcile(h) + |h.manual|
    ensures outcome.Interrupted? ==> history != [] && IsFailure(history, outcome, |history| - 1)
  {
    FrontCount(h);
    if FirstReconcile(h) < |history| {
      ReconcilesBegin(h, history, done, settled, server, outcome, |history| - 1);
    }
  }

  // ---- The report ----

  /** What is reported as done: the warning if there was one, then exactly the accepted requests, each as what it did. */
  lemma ReportsWhatWasAccepted(h: Holds, history: seq<Exchange>, done: seq<Completed>, settled: seq<ManualSession>, server: Server,
                               outcome: Outcome, k: nat)
    requires Went(h, history, done, settled, server, outcome)
    ensures var offset := if h.request then 1 else 0;
            && |done| == offset + |history| - (if outcome.Cleared? then 0 else 1) && (h.request ==> done[0] == ClearedWarning)
            && (offset + k < |done| ==> done[offset + k] == ReportOf(history[k].request))
  {
    var n := |history| - (if outcome.Cleared? then 0 else 1);
    assert done == Warning(h) + Reports(Plan(h, settled), n);
    if k < n {
      InPlace(h, history, done, settled, server, outcome, k);
      PlanReports(h, settled, k);
    }
  }

  /** A run ended, the delivery released, so many connections stopped, or a decision recorded. */
  function ReportOf(request: Sent): Completed {
    match request
    case Takeover(id, command) => EndedRun(Run(id, command))
    case Release(_) => ReleasedDelivery
    case Stop(q) => StoppedTyping(|q.writers|)
    case Reconcile(_, _) => RecordedDecision
  }

  lemma PlanReports(h: Holds, settled: seq<ManualSession>, k: nat)
    requires k < |Plan(h, settled)|
    ensures Plan(h, settled)[k].report == ReportOf(Plan(h, settled)[k].request)
  {
    if |BeforeStops(h)| <= k < |BeforeReconciling(h)| {
      StopReports(h.manual, |h.manual|, k - |BeforeStops(h)|);
      FrontPlanned(h, settled, k);
    }
  }

  lemma {:induction false} StopReports(manual: seq<ManualSession>, n: nat, k: nat)
    requires n <= |manual| && k < |Stops(manual, n)|
    ensures Stops(manual, n)[k].request.Stop? && Stops(manual, n)[k].report == ReportOf(Stops(manual, n)[k].request)
  {
    if k < |Stops(manual, n - 1)| {
      StopReports(manual, n - 1, k);
    }
  }
}
