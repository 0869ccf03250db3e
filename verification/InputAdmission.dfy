/** Which input a terminal admits, in which pieces it is queued, and when input is given up. */
module InputAdmission {
  import opened Text
  import opened TerminalInput

  lemma {:induction false} BytesQueued(queue: seq<Queued>)
    ensures Weight(queue) == |Spelled(queue)|
  {
    if queue != [] {
      BytesQueued(queue[1..]);
    }
  }

  /** A typed event is cut every 4096 bytes and nowhere else; its pieces spell it, and only the first starts it. */
  lemma {:induction false} ChunksAreFull(bytes: seq<Byte>, first: bool)
    ensures var chunks := Chunks(bytes, first);
            && Spelled(chunks) == bytes && (chunks == [] <==> bytes == [])
            && (forall i | 0 <= i < |chunks| :: chunks[i].Typed? && (Starts(chunks[i]) <==> first && i == 0))
            && (forall i | 0 <= i < |chunks| - 1 :: |chunks[i].bytes| == 4096)
            && (chunks != [] ==> 0 < |chunks[|chunks| - 1].bytes| <= 4096)
  {
    ChunksSpell(bytes, first);
    if bytes != [] {
      ChunksAreFull(bytes[|Take(bytes, CHUNK)|..], false);
    }
  }

  // ---- Admission ----

  predicate Open(l: Link, visible: bool) {
    l.writer && l.ready && visible
  }

  /** What the bytes queued and those typed come to must not exceed 256 KiB. */
  predicate Exceeds(l: Link, bytes: seq<Byte>) {
    |Spelled(l.queue)| + |bytes| > 262144
  }

  /** What was sent and what is queued, as bytes. */
  function AllInput(l: Link): seq<Byte> {
    Spelled(l.trace.sent) + Spelled(l.queue)
  }

  lemma DrainKeepsInput(l: Link)
    ensures AllInput(Drain(l)) == AllInput(l)
    ensures Drain(l).trace.events == l.trace.events && Drain(l).failed == l.failed
    ensures Drain(l).writer == l.writer && Drain(l).ready == l.ready
  {
    if l.writer && !l.sending && l.queue != [] {
      var sent, head, rest := l.trace.sent, [l.queue[0]], l.queue[1..];
      assert l.queue == head + rest;
      SpelledConcat(sent, head);
      SpelledConcat(head, rest);
    }
  }

  lemma TypedInput(l: Link, bytes: seq<Byte>)
    ensures var typed := Typing(l, bytes);
            && AllInput(typed) == AllInput(l) + bytes
            && typed.trace.events == l.trace.events + (if bytes == [] then [] else [Keys(bytes)])
            && typed.writer == l.writer && typed.ready == l.ready && typed.failed == l.failed
  {
    ChunksAreFull(bytes, true);
    SpelledConcat(l.queue, EventChunks(Keys(bytes)));
    Assoc(Spelled(l.trace.sent), Spelled(l.queue), bytes);
  }

  /** Typing at a writable, ready and visible terminal is admitted as one event, its bytes after all earlier ones, if it
      fits; if it does not, all input is given up and nothing is requested. Anywhere else it changes nothing. */
  lemma TypingIsAdmittedExactly(l: Link, bytes: seq<Byte>, visible: bool)
    requires Counted(l)
    ensures var n := Next(l, Type(bytes, visible));
            && (!Open(l, visible) ==> n == l)
            && (Open(l, visible) && !Exceeds(l, bytes) ==>
                  && n.trace.events == l.trace.events + (if bytes == [] then [] else [Keys(bytes)])
                  && AllInput(n) == AllInput(l) + bytes && n.writer && n.ready && n.failed == l.failed)
            && (Open(l, visible) && Exceeds(l, bytes) ==>
                  && n.failed && !n.writer && !n.ready && n.queue == [] && n.bytes == 0
                  && n.trace == l.trace.(events := [], sent := []))
  {
    BytesQueued(l.queue);
    if Open(l, visible) && !Exceeds(l, bytes) {
      TypedInput(l, bytes);
      DrainKeepsInput(Typing(l, bytes));
    }
  }

  /** An image is admitted exactly at a writable, ready and visible terminal with nothing queued and no request of the
      generation unanswered; anywhere else it changes nothing. */
  lemma ImageIsAdmittedExactly(l: Link, key: string, visible: bool)
    requires Lane(l)
    ensures var n := Next(l, Insert(key, visible));
            var admitted := Open(l, visible) && l.queue == [] && l.generation !in l.trace.inFlight;
            && (!admitted ==> n == l)
            && (admitted ==>
                  && n.trace.events == l.trace.events + [Insertion(key)] && n.queue == [] && n.failed == l.failed
                  && n.trace.requests == l.trace.requests + [Request(l.generation, l.number + 1, Image(key))])
  {
  }

  // ---- Requests ----

  /** What the draining loop would send next, given what is queued. */
  function NextRequest(l: Link, queue: seq<Queued>): seq<Request> {
    if l.writer && queue != [] then [Request(l.generation, l.number + 1, queue[0])] else []
  }

  /** The one request a step makes, if any: of the head of the queue under the next number, by input or leaving when no
      request of the generation is unanswered, and by the matching receipt of the one that was. */
  function Makes(l: Link, step: Step): seq<Request> {
    match step
    case Type(bytes, visible) =>
      if Open(l, visible) && !Exceeds(l, bytes) && l.generation !in l.trace.inFlight
      then NextRequest(l, l.queue + Chunks(bytes, true)) else []
    case Insert(key, visible) =>
      if Open(l, visible) && l.queue == [] && l.generation !in l.trace.inFlight then NextRequest(l, [Image(key)]) else []
    case Answer(generation, ok) =>
      if generation == l.generation && generation in l.trace.inFlight && ok then NextRequest(l, l.queue) else []
    case Leave => if l.generation !in l.trace.inFlight then NextRequest(l, l.queue) else []
    case _ => []
  }

  lemma RequestsOfTyping(l: Link, bytes: seq<Byte>, visible: bool)
    requires Counted(l) && Lane(l)
    ensures Next(l, Type(bytes, visible)).trace.requests == l.trace.requests + Makes(l, Type(bytes, visible))
  {
    BytesQueued(l.queue);
    if Open(l, visible) && !Exceeds(l, bytes) {
      QueueOfTyping(l, bytes);
    }
  }

  lemma QueueOfTyping(l: Link, bytes: seq<Byte>)
    ensures Typing(l, bytes).queue == l.queue + Chunks(bytes, true)
  {
  }

  /** Every step makes exactly that request. */
  lemma RequestsAreMadeExactly(l: Link, step: Step)
    requires Counted(l) && Lane(l)
    ensures Next(l, step).trace.requests == l.trace.requests + Makes(l, step)
  {
    match step
    case Type(bytes, visible) => RequestsOfTyping(l, bytes, visible);
    case Insert(key, visible) => ImageIsAdmittedExactly(l, key, visible);
    case Answer(generation, ok) => RequestsOfAnswer(l, generation, ok);
    case Leave => RequestsOfLeaving(l);
    case _ =>
  }

  lemma RequestsOfAnswer(l: Link, generation: Generation, ok: bool)
    ensures Next(l, Answer(generation, ok)).trace.requests == l.trace.requests + Makes(l, Answer(generation, ok))
  {
  }

  lemma RequestsOfLeaving(l: Link)
    requires Lane(l)
    ensures Next(l, Leave).trace.requests == l.trace.requests + Makes(l, Leave)
  {
  }

  // ---- Frames ----

  /** A keyboard frame sets the writer of its own generation, and ends readiness with it; a reset frame starts a generation
      from nothing. */
  lemma FramesSetWriter(l: Link, g: Generation, writer: bool)
    ensures var n := Next(l, KeyboardFrame(g, writer));
            n == if g == l.generation then l.(writer := writer, ready := l.ready && writer) else l
    ensures var n := Next(l, ResetFrame(g));
            && n.generation == g && !n.writer && !n.ready && n.queue == [] && n.bytes == 0 && n.number == 0 && !n.sending
            && n.failed == l.failed && n.trace.requests == l.trace.requests
  {
  }

  /** In every run, a terminal that takes keys is a writer. */
  lemma {:induction false} ReadyMeansWriter(steps: seq<Step>)
    ensures Run(steps).ready ==> Run(steps).writer
  {
    if steps != [] {
      var l, step := Run(steps[..|steps| - 1]), steps[|steps| - 1];
      ReadyMeansWriter(steps[..|steps| - 1]);
      ReadyKept(l, step);
    }
  }

  lemma ReadyKept(l: Link, step: Step)
    requires l.ready ==> l.writer
    ensures Next(l, step).ready ==> Next(l, step).writer
  {
    match step
    case Type(bytes, visible) => DrainKeepsInput(Typing(l, bytes));
    case Insert(key, visible) => DrainKeepsInput(Admit(l, Insertion(key)));
    case Leave => DrainKeepsInput(l.(ready := false));
    case _ =>
  }

  // ---- Stopping and giving back ----

  /** Clearing keeps exactly what is left of the event already started: the queue up to the first chunk that starts another. */
  lemma ClearingKeepsTail(l: Link)
    requires Counted(l)
    ensures var n := Next(l, Transient);
            && n.queue <= l.queue && Continuations(n.queue) && n.bytes == |Spelled(n.queue)|
            && (|n.queue| < |l.queue| ==> Starts(l.queue[|n.queue|]))
            && n == l.(queue := n.queue, bytes := n.bytes, trace := l.trace.(events := n.trace.events))
  {
    BytesQueued(Next(l, Transient).queue);
    assert l.queue[..|l.queue|] == l.queue;
  }

  /** A freeze that holds the terminal takes its writer, drops everything unsent and keeps the generation and its numbers;
      given back instead, it goes on writing, without what was unsent. */
  lemma FreezeDropsUnsent(l: Link, allowPending: bool)
    ensures var held := l.writer && l.ready && (allowPending || (!l.sending && l.queue == []));
            var n := Next(l, Freeze(allowPending));
            && (!held ==> n == l)
            && (held ==> !n.writer && !n.ready && n.queue == [] && n.bytes == (if allowPending then 0 else l.bytes))
            && n.generation == l.generation && n.number == l.number && n.sending == l.sending
            && n.trace.requests == l.trace.requests && n.trace.inFlight == l.trace.inFlight
    ensures var n := Next(l, GiveBack);
            && (l.writer && l.ready ==> n == l.(queue := [], bytes := 0, trace := l.trace.(events := [], sent := [])))
            && (!(l.writer && l.ready) ==> n == l)
  {
  }

  // ---- Giving up ----

  /** The connection is lost or closed, a request of this generation is answered by anything but its receipt, or admitted
      typing exceeds the limit. */
  predicate GivesUp(l: Link, step: Step) {
    match step
    case Lose => true
    case Close => true
    case Answer(generation, ok) => generation == l.generation && generation in l.trace.inFlight && !ok
    case Type(bytes, visible) => Open(l, visible) && Exceeds(l, bytes)
    case _ => false
  }

  lemma GivenUpByStep(l: Link, step: Step)
    requires Counted(l) && Lane(l)
    ensures Next(l, step).failed <==> l.failed || GivesUp(l, step)
    ensures GivesUp(l, step) ==> Next(l, step).queue == [] && !Next(l, step).writer && !Next(l, step).ready
  {
    match step
    case Type(bytes, visible) => TypingIsAdmittedExactly(l, bytes, visible);
    case Insert(key, visible) => ImageIsAdmittedExactly(l, key, visible);
    case Leave => DrainKeepsInput(l.(ready := false));
    case _ =>
  }

  ghost predicate GaveUpWithin(steps: seq<Step>, n: nat)
    requires n <= |steps|
  {
    exists k :: 0 <= k < n && GivesUp(Run(steps[..k]), steps[k])
  }

  lemma GaveUpBefore(steps: seq<Step>, n: nat)
    requires n <= |steps|
    ensures GaveUpWithin(steps[..n], n) <==> GaveUpWithin(steps, n)
  {
    assert forall k | 0 <= k < n :: steps[..n][..k] == steps[..k] && steps[..n][k] == steps[k];
  }

  lemma GaveUpLater(steps: seq<Step>, n: nat)
    requires n < |steps|
    ensures GaveUpWithin(steps, n + 1) <==> GaveUpWithin(steps, n) || GivesUp(Run(steps[..n]), steps[n])
  {
  }

  /** In every run, input has been given up if and only if some step of it gave it up. */
  lemma {:induction false} GivenUpExactly(steps: seq<Step>)
    requires NewGenerations(steps)
    ensures Run(steps).failed <==> GaveUpWithin(steps, |steps|)
  {
    if steps != [] {
      var n := |steps| - 1;
      var before := steps[..n];
      forall i | 0 <= i < n
        ensures NewGeneration(Run(before[..i]), before[i])
      {
        assert before[..i] == steps[..i];
      }
      GivenUpExactly(before);
      RunsAreGood(before);
      GivenUpByStep(Run(before), steps[n]);
      GaveUpBefore(steps, n);
      GaveUpLater(steps, n);
    }
  }
}
