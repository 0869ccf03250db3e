/** The input lane of one terminal connection: a queue of event chunks, one request in flight, and the frames and
    decisions that stop it. The trace is what was sent, for the proofs only. */
module TerminalInput {
  import opened Text

  type Byte = b: int | 0 <= b < 256
  type Generation = string

  const CHUNK := 4096
  const QUEUE_LIMIT := 256 * 1024

  /** A chunk of typed bytes, marked if it starts its event, or one image insertion. */
  datatype Queued = Typed(bytes: seq<Byte>, first: bool) | Image(key: string)
  datatype Event = Keys(bytes: seq<Byte>) | Insertion(key: string)
  datatype Request = Request(generation: Generation, number: nat, item: Queued)

  /** The events admitted and the items sent since input last started or was dropped, every request ever made, the
      generations of those not yet answered, and every generation the connection has had. */
  datatype Trace = Trace(events: seq<Event>, sent: seq<Queued>, requests: seq<Request>, inFlight: multiset<Generation>,
                         seen: set<Generation>)

  datatype Link = Link(generation: Generation, writer: bool, ready: bool, failed: bool, number: nat,
                       queue: seq<Queued>, bytes: nat, sending: bool, trace: Trace)

  predicate Starts(item: Queued) {
    item.Image? || item.first
  }

  function Size(item: Queued): nat {
    if item.Typed? then |item.bytes| else 0
  }

  function Weight(queue: seq<Queued>): nat {
    if queue == [] then 0 else Size(queue[0]) + Weight(queue[1..])
  }

  // ---- Events and their chunks ----

  function Chunks(bytes: seq<Byte>, first: bool): (chunks: seq<Queued>)
    ensures forall i | 0 <= i < |chunks| :: chunks[i].Typed? && 0 < |chunks[i].bytes| <= CHUNK
    ensures forall i | 0 <= i < |chunks| :: chunks[i].first <==> first && i == 0
    ensures chunks == [] <==> bytes == []
  {
    if bytes == [] then [] else [Typed(Take(bytes, CHUNK), first)] + Chunks(bytes[|Take(bytes, CHUNK)|..], false)
  }

  function EventChunks(e: Event): seq<Queued> {
    match e
    case Keys(bytes) => Chunks(bytes, true)
    case Insertion(key) => [Image(key)]
  }

  function AllChunks(events: seq<Event>): seq<Queued> {
    if events == [] then [] else EventChunks(events[0]) + AllChunks(events[1..])
  }

  // ---- Operations ----

  /** One turn of the draining loop, with no request of this generation in flight. */
  function Pump(l: Link): Link {
    if l.writer && l.queue != [] then
      var item, number := l.queue[0], l.number + 1;
      var t := l.trace;
      l.(queue := l.queue[1..], bytes := if l.bytes >= Size(item) then l.bytes - Size(item) else 0, number := number, sending := true,
         trace := t.(sent := t.sent + [item], requests := t.requests + [Request(l.generation, number, item)],
                     inFlight := t.inFlight + multiset{l.generation}))
    else l.(sending := false)
  }

  function Drain(l: Link): Link {
    if !l.writer || l.sending then l else Pump(l)
  }

  /** Input is given up: the queue is dropped and the connection closed. */
  function Lost(l: Link): Link {
    l.(writer := false, ready := false, failed := true, queue := [], bytes := 0, trace := l.trace.(events := [], sent := []))
  }

  /** Queues an event; one without bytes leaves nothing to queue. */
  function Admit(l: Link, e: Event): Link {
    if EventChunks(e) == [] then l
    else l.(queue := l.queue + EventChunks(e), trace := l.trace.(events := l.trace.events + [e]))
  }

  function Typing(l: Link, bytes: seq<Byte>): Link {
    Admit(l, Keys(bytes)).(bytes := l.bytes + |bytes|)
  }

  function Enqueue(l: Link, bytes: seq<Byte>, visible: bool): Link {
    if !l.writer || !l.ready || !visible then l
    else if |bytes| + l.bytes > QUEUE_LIMIT then Lost(l)
    else Drain(Typing(l, bytes))
  }

  function InsertImage(l: Link, key: string, visible: bool): Link {
    if !l.writer || !l.ready || !visible || l.queue != [] || l.sending then l
    else Drain(Admit(l, Insertion(key)))
  }

  /** A request of the generation is answered; only a matching receipt lets the loop go on. */
  function Reply(l: Link, generation: Generation, ok: bool): Link {
    if generation !in l.trace.inFlight then l else
      var answered := l.(trace := l.trace.(inFlight := l.trace.inFlight - multiset{generation}));
      if generation != l.generation then answered
      else if ok then Pump(answered) else Lost(answered).(sending := false)
  }

  function FirstStart(queue: seq<Queued>): (n: nat)
    ensures n <= |queue| && (n < |queue| ==> Starts(queue[n])) && forall i | 0 <= i < n :: !Starts(queue[i])
  {
    if queue == [] || Starts(queue[0]) then 0 else 1 + FirstStart(queue[1..])
  }

  function StartsIn(items: seq<Queued>): nat {
    if items == [] then 0 else (if Starts(items[0]) then 1 else 0) + StartsIn(items[1..])
  }

  /** The events left when the last `n` are dropped. */
  function Without(events: seq<Event>, n: nat): seq<Event> {
    if n <= |events| then events[..|events| - n] else []
  }

  /** Drops only events not yet started. */
  function ClearTransient(l: Link): Link {
    var next := FirstStart(l.queue);
    if next == |l.queue| then l
    else l.(queue := l.queue[..next], bytes := Weight(l.queue[..next]),
            trace := l.trace.(events := Without(l.trace.events, StartsIn(l.queue[next..]))))
  }

  function Reset(l: Link, generation: Generation): Link {
    l.(generation := generation, writer := false, ready := false, number := 0, queue := [], bytes := 0, sending := false,
       trace := l.trace.(events := [], sent := [], seen := l.trace.seen + {generation}))
  }

  function Keyboard(l: Link, generation: Generation, writer: bool): Link {
    if generation != l.generation then l else l.(writer := writer, ready := writer && l.ready)
  }

  /** A lane whose unsent input is dropped. */
  function Emptied(l: Link): Link {
    l.(queue := [], bytes := 0, trace := l.trace.(events := [], sent := []))
  }

  /** The handle's freeze, once it is allowed: unsent bytes are dropped when `allowPending`. */
  function Frozen(l: Link, allowPending: bool): Link {
    var stopped := if allowPending then l.(queue := [], bytes := 0, trace := l.trace.(events := [], sent := [])) else l;
    ClearTransient(stopped.(writer := false, ready := false))
  }

  /** A stop freezes a writer either for its request (Freeze), or, when another writer is missing, only to thaw it in the
      same breath (GiveBack): nothing else thaws. */
  datatype Step =
    | Type(bytes: seq<Byte>, visible: bool)
    | Insert(key: string, visible: bool)
    | Answer(generation: Generation, ok: bool)
    | Transient
    | Lose
    | ResetFrame(generation: Generation)
    | KeyboardFrame(generation: Generation, writer: bool)
    | Enter
    | Leave
    | Freeze(allowPending: bool)
    | GiveBack
    | Close

  function Next(l: Link, step: Step): Link {
    match step
    case Type(bytes, visible) => Enqueue(l, bytes, visible)
    case Insert(key, visible) => InsertImage(l, key, visible)
    case Answer(generation, ok) => Reply(l, generation, ok)
    case Transient => ClearTransient(l)
    case Lose => Lost(l)
    case ResetFrame(generation) => Reset(l, generation)
    case KeyboardFrame(generation, writer) => Keyboard(l, generation, writer)
    case Enter => if l.writer then l.(ready := true) else l
    case Leave => Drain(l.(ready := false))
    case Freeze(allowPending) => if l.writer && l.ready && (allowPending || (!l.sending && l.queue == [])) then Frozen(l, allowPending) else l
    case GiveBack => if l.writer && l.ready then Emptied(l) else l
    case Close => Lost(l)
  }

  const Opened := Link("", false, false, false, 0, [], 0, false, Trace([], [], [], multiset{}, {""}))

  function Run(steps: seq<Step>): Link {
    if steps == [] then Opened else Next(Run(steps[..|steps| - 1]), steps[|steps| - 1])
  }

  // ---- What holds of the queue ----

  predicate Continuations(items: seq<Queued>) {
    forall i | 0 <= i < |items| :: !Starts(items[i])
  }

  /** The admitted events are those started, then whole ones: the queue is the unsent tail of the former, then the latter,
      and what was sent with that tail is exactly the started events. */
  ghost predicate Shaped(l: Link, tail: seq<Queued>, whole: seq<Event>, started: seq<Event>) {
    && Continuations(tail) && Solid(whole) && l.trace.events == started + whole
    && l.queue == tail + AllChunks(whole) && l.trace.sent + tail == AllChunks(started)
  }

  predicate Solid(events: seq<Event>) {
    forall i | 0 <= i < |events| :: EventChunks(events[i]) != []
  }

  ghost predicate WholeEvents(l: Link) {
    exists tail, whole, started :: Shaped(l, tail, whole, started)
  }

  predicate Counted(l: Link) {
    l.bytes == Weight(l.queue) <= QUEUE_LIMIT
  }

  function CountOf(requests: seq<Request>, generation: Generation): nat {
    if requests == [] then 0 else
      CountOf(requests[..|requests| - 1], generation) + if requests[|requests| - 1].generation == generation then 1 else 0
  }

  /** Within each generation the requests are numbered from one on, without gaps. */
  predicate Numbered(requests: seq<Request>) {
    requests == [] ||
    (Numbered(requests[..|requests| - 1])
     && requests[|requests| - 1].number == CountOf(requests[..|requests| - 1], requests[|requests| - 1].generation) + 1)
  }

  ghost predicate Lane(l: Link) {
    && Numbered(l.trace.requests) && l.number == CountOf(l.trace.requests, l.generation)
    && l.generation in l.trace.seen
    && (forall i | 0 <= i < |l.trace.requests| :: l.trace.requests[i].generation in l.trace.seen)
    && (forall g :: l.trace.inFlight[g] <= 1) && (forall g <- l.trace.inFlight :: g in l.trace.seen)
    && (l.sending <==> l.generation in l.trace.inFlight)
  }

  ghost predicate Good(l: Link) {
    WholeEvents(l) && Counted(l) && Lane(l)
  }

  /** Every reset brings a generation that the connection has not had. */
  predicate NewGeneration(l: Link, step: Step) {
    step.ResetFrame? ==> step.generation !in l.trace.seen
  }

  // ---- Arithmetic of queues ----

  lemma Assoc<T>(a: seq<T>, b: seq<T>, c: seq<T>)
    ensures (a + b) + c == a + (b + c)
  {
  }

  lemma {:induction false} WeightConcat(a: seq<Queued>, b: seq<Queued>)
    ensures Weight(a + b) == Weight(a) + Weight(b)
  {
    if a == [] {
      assert a + b == b;
    } else {
      WeightConcat(a[1..], b);
      assert (a + b)[1..] == a[1..] + b;
    }
  }

  lemma {:induction false} ChunksWeigh(bytes: seq<Byte>, first: bool)
    ensures Weight(Chunks(bytes, first)) == |bytes|
  {
    if bytes != [] {
      ChunksWeigh(bytes[|Take(bytes, CHUNK)|..], false);
    }
  }

  lemma {:induction false} AllChunksConcat(a: seq<Event>, b: seq<Event>)
    ensures AllChunks(a + b) == AllChunks(a) + AllChunks(b)
  {
    if a == [] {
      assert a + b == b;
    } else {
      AllChunksConcat(a[1..], b);
      assert (a + b)[1..] == a[1..] + b;
      Assoc(EventChunks(a[0]), AllChunks(a[1..]), AllChunks(b));
    }
  }

  lemma OneEvent(e: Event)
    ensures AllChunks([e]) == EventChunks(e)
  {
    assert AllChunks([e][1..]) == [];
  }

  /** After its first chunk, an event only has continuations. */
  lemma EventShape(e: Event)
    ensures var chunks := EventChunks(e); chunks != [] ==> Starts(chunks[0]) && Continuations(chunks[1..])
  {
  }

  lemma {:induction false} StartsConcat(a: seq<Queued>, b: seq<Queued>)
    ensures StartsIn(a + b) == StartsIn(a) + StartsIn(b)
  {
    if a == [] {
      assert a + b == b;
    } else {
      StartsConcat(a[1..], b);
      assert (a + b)[1..] == a[1..] + b;
    }
  }

  lemma {:induction false} ContinuationsHaveNoStart(items: seq<Queued>)
    requires Continuations(items)
    ensures StartsIn(items) == 0
  {
    if items != [] {
      ContinuationsHaveNoStart(items[1..]);
    }
  }

  lemma {:induction false} OneStartPerEvent(whole: seq<Event>)
    requires Solid(whole)
    ensures StartsIn(AllChunks(whole)) == |whole|
  {
    if whole != [] {
      var chunks := EventChunks(whole[0]);
      OneStartPerEvent(whole[1..]);
      StartsConcat(chunks, AllChunks(whole[1..]));
      EventShape(whole[0]);
      ContinuationsHaveNoStart(chunks[1..]);
    }
  }

  /** What the queued items spell, and what an event does. */
  function Spelled(items: seq<Queued>): seq<Byte> {
    if items == [] then [] else (if items[0].Typed? then items[0].bytes else []) + Spelled(items[1..])
  }

  function EventBytes(e: Event): seq<Byte> {
    if e.Keys? then e.bytes else []
  }

  function AllBytes(events: seq<Event>): seq<Byte> {
    if events == [] then [] else EventBytes(events[0]) + AllBytes(events[1..])
  }

  lemma {:induction false} SpelledConcat(a: seq<Queued>, b: seq<Queued>)
    ensures Spelled(a + b) == Spelled(a) + Spelled(b)
  {
    if a == [] {
      assert a + b == b;
    } else {
      SpelledConcat(a[1..], b);
      assert (a + b)[1..] == a[1..] + b;
    }
  }

  lemma {:induction false} ChunksSpell(bytes: seq<Byte>, first: bool)
    ensures Spelled(Chunks(bytes, first)) == bytes
  {
    if bytes != [] {
      var n := |Take(bytes, CHUNK)|;
      ChunksSpell(bytes[n..], false);
      assert bytes == bytes[..n] + bytes[n..];
    }
  }

  lemma {:induction false} AllChunksSpell(events: seq<Event>)
    ensures Spelled(AllChunks(events)) == AllBytes(events)
  {
    if events != [] {
      AllChunksSpell(events[1..]);
      SpelledConcat(EventChunks(events[0]), AllChunks(events[1..]));
      match events[0]
      case Keys(bytes) => ChunksSpell(bytes, true);
      case Insertion(_) =>
    }
  }

  // ---- Preservation: the shape of the queue ----

  lemma EmptyIsWhole(l: Link)
    requires l.queue == [] && l.trace.sent == [] && l.trace.events == []
    ensures WholeEvents(l)
  {
    assert Shaped(l, [], [], []);
  }

  lemma SameQueueIsWhole(l: Link, n: Link)
    requires WholeEvents(l) && n.queue == l.queue && n.trace.sent == l.trace.sent && n.trace.events == l.trace.events
    ensures WholeEvents(n)
  {
    var tail, whole, started :| Shaped(l, tail, whole, started);
    assert Shaped(n, tail, whole, started);
  }

  lemma AdmitIsWhole(l: Link, e: Event)
    requires WholeEvents(l)
    ensures WholeEvents(Admit(l, e))
  {
    var tail, whole, started :| Shaped(l, tail, whole, started);
    AllChunksConcat(whole, [e]);
    OneEvent(e);
    Assoc(tail, AllChunks(whole), EventChunks(e));
    Assoc(started, whole, [e]);
    assert Shaped(Admit(l, e), tail, if EventChunks(e) == [] then whole else whole + [e], started);
  }

  /** Moves the head of a tail from what is left to what was sent. */
  lemma MoveHead<T>(sent: seq<T>, tail: seq<T>, rest: seq<T>)
    requires tail != []
    ensures (tail + rest)[0] == tail[0] && (tail + rest)[1..] == tail[1..] + rest
    ensures (sent + [tail[0]]) + tail[1..] == sent + tail
  {
  }

  predicate Sent(l: Link, n: Link)
    requires l.queue != []
  {
    n.queue == l.queue[1..] && n.trace.sent == l.trace.sent + [l.queue[0]] && n.trace.events == l.trace.events
  }

  lemma SendOfTail(l: Link, n: Link, tail: seq<Queued>, whole: seq<Event>, started: seq<Event>)
    requires Shaped(l, tail, whole, started) && tail != []
    requires l.queue != [] && Sent(l, n)
    ensures WholeEvents(n)
  {
    MoveHead(l.trace.sent, tail, AllChunks(whole));
    assert Shaped(n, tail[1..], whole, started);
  }

  lemma SendOfEvent(l: Link, n: Link, whole: seq<Event>, started: seq<Event>)
    requires Shaped(l, [], whole, started) && l.queue != []
    requires Sent(l, n)
    ensures WholeEvents(n)
  {
    assert l.queue == AllChunks(whole) && l.trace.sent == AllChunks(started);
    var e, rest := whole[0], whole[1..];
    Assoc(started, [e], rest);
    assert [e] + rest == whole;
    EventShape(e);
    AllChunksConcat(started, [e]);
    OneEvent(e);
    MoveHead(l.trace.sent, EventChunks(e), AllChunks(rest));
    assert Shaped(n, EventChunks(e)[1..], rest, started + [e]);
  }

  lemma SendIsWhole(l: Link, n: Link)
    requires WholeEvents(l) && l.queue != [] && Sent(l, n)
    ensures WholeEvents(n)
  {
    var tail, whole, started :| Shaped(l, tail, whole, started);
    if tail != [] {
      SendOfTail(l, n, tail, whole, started);
    } else {
      SendOfEvent(l, n, whole, started);
    }
  }

  lemma FirstStartAfter(tail: seq<Queued>, rest: seq<Queued>)
    requires Continuations(tail) && (rest != [] ==> Starts(rest[0]))
    ensures FirstStart(tail + rest) == |tail|
  {
    assert forall i | 0 <= i < |tail| :: (tail + rest)[i] == tail[i];
    assert rest != [] ==> (tail + rest)[|tail|] == rest[0];
  }

  lemma WholeStarts(whole: seq<Event>)
    requires Solid(whole)
    ensures AllChunks(whole) != [] ==> Starts(AllChunks(whole)[0])
  {
    if whole != [] {
      EventShape(whole[0]);
    }
  }

  lemma Cleared(l: Link, tail: seq<Queued>, whole: seq<Event>, started: seq<Event>)
    requires Shaped(l, tail, whole, started)
    ensures var n := ClearTransient(l); n.queue == tail && n.trace == l.trace.(events := started)
  {
    var rest := AllChunks(whole);
    WholeStarts(whole);
    FirstStartAfter(tail, rest);
    assert l.queue[..|tail|] == tail && l.queue[|tail|..] == rest;
    OneStartPerEvent(whole);
    assert Without(started + whole, |whole|) == started;
    assert started + [] == started;
  }

  /** Clearing never cuts a started event: what was sent, with what is left, is exactly the first of the admitted events. */
  lemma ClearKeepsStarted(l: Link)
    requires WholeEvents(l)
    ensures WholeEvents(ClearTransient(l))
    ensures var n := ClearTransient(l);
            n.trace.events <= l.trace.events && n.trace.sent == l.trace.sent && n.trace.sent + n.queue == AllChunks(n.trace.events)
  {
    var tail, whole, started :| Shaped(l, tail, whole, started);
    var n := ClearTransient(l);
    Cleared(l, tail, whole, started);
    assert tail + AllChunks([]) == tail && started + [] == started;
    assert Shaped(n, tail, [], started);
  }

  lemma PumpKeepsWhole(l: Link)
    requires WholeEvents(l)
    ensures WholeEvents(Pump(l))
  {
    if l.writer && l.queue != [] {
      SendIsWhole(l, Pump(l));
    } else {
      SameQueueIsWhole(l, Pump(l));
    }
  }

  lemma DrainKeepsWhole(l: Link)
    requires WholeEvents(l)
    ensures WholeEvents(Drain(l))
  {
    PumpKeepsWhole(l);
  }

  lemma EnqueueKeepsWhole(l: Link, bytes: seq<Byte>, visible: bool)
    requires WholeEvents(l)
    ensures WholeEvents(Enqueue(l, bytes, visible))
  {
    if |bytes| + l.bytes > QUEUE_LIMIT {
      EmptyIsWhole(Lost(l));
    } else {
      AdmitIsWhole(l, Keys(bytes));
      SameQueueIsWhole(Admit(l, Keys(bytes)), Typing(l, bytes));
      DrainKeepsWhole(Typing(l, bytes));
    }
  }

  lemma InsertKeepsWhole(l: Link, key: string, visible: bool)
    requires WholeEvents(l)
    ensures WholeEvents(InsertImage(l, key, visible))
  {
    AdmitIsWhole(l, Insertion(key));
    DrainKeepsWhole(Admit(l, Insertion(key)));
  }

  lemma ReplyKeepsWhole(l: Link, generation: Generation, ok: bool)
    requires WholeEvents(l)
    ensures WholeEvents(Reply(l, generation, ok))
  {
    var answered := l.(trace := l.trace.(inFlight := l.trace.inFlight - multiset{generation}));
    SameQueueIsWhole(l, answered);
    PumpKeepsWhole(answered);
    EmptyIsWhole(Lost(answered).(sending := false));
  }

  lemma LeaveKeepsWhole(l: Link)
    requires WholeEvents(l)
    ensures WholeEvents(Drain(l.(ready := false)))
  {
    SameQueueIsWhole(l, l.(ready := false));
    DrainKeepsWhole(l.(ready := false));
  }

  lemma FrameKeepsWhole(l: Link, step: Step)
    requires WholeEvents(l) && (step.ResetFrame? || step.KeyboardFrame? || step.Enter? || step.GiveBack?)
    ensures WholeEvents(Next(l, step))
  {
    match step
    case ResetFrame(generation) => EmptyIsWhole(Reset(l, generation));
    case KeyboardFrame(generation, writer) => SameQueueIsWhole(l, Keyboard(l, generation, writer));
    case Enter => SameQueueIsWhole(l, l.(ready := true));
    case GiveBack => EmptyIsWhole(Emptied(l));
  }

  lemma StepKeepsWhole(l: Link, step: Step)
    requires WholeEvents(l)
    ensures WholeEvents(Next(l, step))
  {
    match step
    case Type(bytes, visible) => EnqueueKeepsWhole(l, bytes, visible);
    case Insert(key, visible) => InsertKeepsWhole(l, key, visible);
    case Answer(generation, ok) => ReplyKeepsWhole(l, generation, ok);
    case Transient => ClearKeepsStarted(l);
    case Lose => EmptyIsWhole(Lost(l));
    case Leave => LeaveKeepsWhole(l);
    case Freeze(allowPending) => FreezeKeepsWhole(l, allowPending);
    case Close => EmptyIsWhole(Lost(l));
    case _ => FrameKeepsWhole(l, step);
  }

  lemma FreezeKeepsWhole(l: Link, allowPending: bool)
    requires WholeEvents(l)
    ensures WholeEvents(Frozen(l, allowPending))
  {
    var dropped := l.(queue := [], bytes := 0, trace := l.trace.(events := [], sent := []));
    EmptyIsWhole(dropped);
    var stopped := (if allowPending then dropped else l).(writer := false, ready := false);
    SameQueueIsWhole(if allowPending then dropped else l, stopped);
    ClearKeepsStarted(stopped);
  }

  // ---- Preservation: the byte count ----

  lemma PumpKeepsCount(l: Link)
    requires Counted(l)
    ensures Counted(Pump(l))
  {
  }

  lemma ClearKeepsCount(l: Link)
    requires Counted(l)
    ensures Counted(ClearTransient(l))
  {
    var next := FirstStart(l.queue);
    WeightConcat(l.queue[..next], l.queue[next..]);
    assert l.queue[..next] + l.queue[next..] == l.queue;
  }

  lemma TypingKeepsCount(l: Link, bytes: seq<Byte>)
    requires Counted(l) && |bytes| + l.bytes <= QUEUE_LIMIT
    ensures Counted(Typing(l, bytes))
  {
    WeightConcat(l.queue, Chunks(bytes, true));
    ChunksWeigh(bytes, true);
    assert l.queue + [] == l.queue;
  }

  lemma EnqueueKeepsCount(l: Link, bytes: seq<Byte>, visible: bool)
    requires Counted(l)
    ensures Counted(Enqueue(l, bytes, visible))
  {
    if |bytes| + l.bytes <= QUEUE_LIMIT {
      TypingKeepsCount(l, bytes);
      PumpKeepsCount(Typing(l, bytes));
    }
  }

  lemma InsertKeepsCount(l: Link, key: string, visible: bool)
    requires Counted(l)
    ensures Counted(InsertImage(l, key, visible))
  {
    WeightConcat(l.queue, [Image(key)]);
    assert Weight([Image(key)]) == 0;
    PumpKeepsCount(Admit(l, Insertion(key)));
  }

  lemma ReplyKeepsCount(l: Link, generation: Generation, ok: bool)
    requires Counted(l)
    ensures Counted(Reply(l, generation, ok))
  {
    PumpKeepsCount(l.(trace := l.trace.(inFlight := l.trace.inFlight - multiset{generation})));
  }

  lemma FreezeKeepsCount(l: Link, allowPending: bool)
    requires Counted(l)
    ensures Counted(Frozen(l, allowPending))
  {
    ClearKeepsCount((if allowPending then l.(queue := [], bytes := 0, trace := l.trace.(events := [], sent := [])) else l).(writer := false, ready := false));
  }

  lemma StepKeepsCount(l: Link, step: Step)
    requires Counted(l)
    ensures Counted(Next(l, step))
  {
    match step
    case Type(bytes, visible) => EnqueueKeepsCount(l, bytes, visible);
    case Insert(key, visible) => InsertKeepsCount(l, key, visible);
    case Answer(generation, ok) => ReplyKeepsCount(l, generation, ok);
    case Transient => ClearKeepsCount(l);
    case Leave => PumpKeepsCount(l.(ready := false));
    case Freeze(allowPending) => FreezeKeepsCount(l, allowPending);
    case _ =>
  }

  // ---- Preservation: numbering and requests in flight ----

  lemma {:induction false} UnseenIsUncounted(requests: seq<Request>, generation: Generation)
    requires forall i | 0 <= i < |requests| :: requests[i].generation != generation
    ensures CountOf(requests, generation) == 0
  {
    if requests != [] {
      UnseenIsUncounted(requests[..|requests| - 1], generation);
    }
  }

  lemma PumpKeepsLane(l: Link)
    requires Lane(l.(sending := false)) && l.generation !in l.trace.inFlight
    ensures Lane(Pump(l))
  {
    var n := Pump(l);
    if n != l.(sending := false) {
      var requests := n.trace.requests;
      assert requests[..|requests| - 1] == l.trace.requests;
      forall g ensures n.trace.inFlight[g] <= 1 {
        assert l.trace.inFlight[g] <= 1;
      }
    }
  }

  lemma DrainKeepsLane(l: Link)
    requires Lane(l)
    ensures Lane(Drain(l))
  {
    if !l.sending {
      assert l.(sending := false) == l;
      PumpKeepsLane(l);
    }
  }

  lemma SameLane(l: Link, n: Link)
    requires Lane(l) && n.generation == l.generation && n.number == l.number && n.sending == l.sending
    requires n.trace.requests == l.trace.requests && n.trace.inFlight == l.trace.inFlight && n.trace.seen == l.trace.seen
    ensures Lane(n)
  {
  }

  lemma ReplyKeepsLane(l: Link, generation: Generation, ok: bool)
    requires Lane(l)
    ensures Lane(Reply(l, generation, ok))
  {
    if generation in l.trace.inFlight {
      var inFlight := l.trace.inFlight - multiset{generation};
      var answered := l.(trace := l.trace.(inFlight := inFlight));
      assert l.trace.inFlight[generation] == 1;
      forall g ensures inFlight[g] <= 1 {
        assert l.trace.inFlight[g] <= 1;
      }
      if generation == l.generation {
        assert Lane(answered.(sending := false));
        if ok {
          PumpKeepsLane(answered);
        } else {
          SameLane(answered.(sending := false), Lost(answered).(sending := false));
        }
      }
    }
  }

  lemma ResetKeepsLane(l: Link, generation: Generation)
    requires Lane(l) && generation !in l.trace.seen
    ensures Lane(Reset(l, generation))
  {
    UnseenIsUncounted(l.trace.requests, generation);
  }

  lemma EnqueueKeepsLane(l: Link, bytes: seq<Byte>, visible: bool)
    requires Lane(l)
    ensures Lane(Enqueue(l, bytes, visible))
  {
    SameLane(l, Typing(l, bytes));
    DrainKeepsLane(Typing(l, bytes));
    SameLane(l, Lost(l));
  }

  lemma InsertKeepsLane(l: Link, key: string, visible: bool)
    requires Lane(l)
    ensures Lane(InsertImage(l, key, visible))
  {
    SameLane(l, Admit(l, Insertion(key)));
    DrainKeepsLane(Admit(l, Insertion(key)));
  }

  lemma LeaveKeepsLane(l: Link)
    requires Lane(l)
    ensures Lane(Drain(l.(ready := false)))
  {
    SameLane(l, l.(ready := false));
    DrainKeepsLane(l.(ready := false));
  }

  lemma ClearKeepsLane(l: Link)
    requires Lane(l)
    ensures Lane(ClearTransient(l))
  {
    SameLane(l, ClearTransient(l));
  }

  lemma FreezeKeepsLane(l: Link, allowPending: bool)
    requires Lane(l)
    ensures Lane(Frozen(l, allowPending))
  {
    SameLane(l, Frozen(l, allowPending));
  }

  lemma StepKeepsLane(l: Link, step: Step)
    requires Lane(l) && NewGeneration(l, step)
    ensures Lane(Next(l, step))
  {
    match step
    case Type(bytes, visible) => EnqueueKeepsLane(l, bytes, visible);
    case Insert(key, visible) => InsertKeepsLane(l, key, visible);
    case Answer(generation, ok) => ReplyKeepsLane(l, generation, ok);
    case ResetFrame(generation) => ResetKeepsLane(l, generation);
    case Leave => LeaveKeepsLane(l);
    case Transient => ClearKeepsLane(l);
    case Freeze(allowPending) => FreezeKeepsLane(l, allowPending);
    case KeyboardFrame(generation, writer) => SameLane(l, Keyboard(l, generation, writer));
    case Enter => SameLane(l, l.(ready := true));
    case GiveBack => SameLane(l, Emptied(l));
    case Lose => SameLane(l, Lost(l));
    case Close => SameLane(l, Lost(l));
  }

  // ---- Every run ----

  ghost predicate NewGenerations(steps: seq<Step>) {
    forall i | 0 <= i < |steps| :: NewGeneration(Run(steps[..i]), steps[i])
  }

  /** At every point of every run whose resets bring new generations: the queue is the tail of started events and whole
      events, the byte counter is its content within the limit, and each generation's requests are consecutively numbered
      with at most one in flight. */
  lemma {:induction false} RunsAreGood(steps: seq<Step>)
    requires NewGenerations(steps)
    ensures Good(Run(steps))
  {
    if steps == [] {
      EmptyIsWhole(Opened);
    } else {
      var before := steps[..|steps| - 1];
      forall i | 0 <= i < |before| ensures NewGeneration(Run(before[..i]), before[i]) {
        assert before[..i] == steps[..i];
      }
      RunsAreGood(before);
      var l, step := Run(before), steps[|steps| - 1];
      StepKeepsWhole(l, step);
      StepKeepsCount(l, step);
      StepKeepsLane(l, step);
    }
  }

  /** When the queue has drained, the server has been sent exactly the admitted events, in order and whole. */
  lemma DrainedMeansWhole(l: Link)
    requires WholeEvents(l) && l.queue == []
    ensures l.trace.sent == AllChunks(l.trace.events) && Spelled(l.trace.sent) == AllBytes(l.trace.events)
  {
    var tail, whole, started :| Shaped(l, tail, whole, started);
    assert l.trace.sent + tail == l.trace.sent;
    OneStartPerEvent(whole);
    assert started + [] == started;
    AllChunksSpell(started);
  }

  lemma {:induction false} NumbersAreConsecutive(requests: seq<Request>, i: nat)
    requires Numbered(requests) && i < |requests|
    ensures requests[i].number == CountOf(requests[..i], requests[i].generation) + 1
  {
    var n := |requests| - 1;
    if i < n {
      NumbersAreConsecutive(requests[..n], i);
      assert requests[..n][..i] == requests[..i];
    }
  }

  // ---- Stopped input ----

  function Follow(l: Link, steps: seq<Step>): Link
    decreases |steps|
  {
    if steps == [] then l else Follow(Next(l, steps[0]), steps[1..])
  }

  predicate Quiet(l: Link) {
    !l.ready && l.queue == []
  }

  lemma QuietStep(l: Link, step: Step)
    requires Quiet(l) && !step.Enter?
    ensures Quiet(Next(l, step)) && Next(l, step).trace.requests == l.trace.requests
  {
  }

  lemma {:induction false} QuietRun(l: Link, steps: seq<Step>)
    requires Quiet(l) && forall i | 0 <= i < |steps| :: !steps[i].Enter?
    ensures Quiet(Follow(l, steps)) && Follow(l, steps).trace.requests == l.trace.requests
    decreases |steps|
  {
    if steps != [] {
      QuietStep(l, steps[0]);
      QuietRun(Next(l, steps[0]), steps[1..]);
    }
  }

  /** Before input is started anew, a lane frozen for a stop, or whose input was given up, asks for nothing in any
      generation, whatever the server grants. */
  lemma StoppedSendsNothing(l: Link, stopped: Link, steps: seq<Step>)
    requires stopped == Frozen(l, true) || stopped == Lost(l)
    requires forall i | 0 <= i < |steps| :: !steps[i].Enter?
    ensures Follow(stopped, steps).trace.requests == l.trace.requests && !Follow(stopped, steps).ready
  {
    QuietRun(stopped, steps);
  }

  /** In that generation nothing is writable and nothing is left to send. */
  predicate Retired(l: Link, g: Generation) {
    l.generation == g ==> !l.writer && !l.ready && l.queue == []
  }

  /** The server grants the keyboard in a generation the lane has. */
  predicate Grants(l: Link, step: Step, g: Generation) {
    l.generation == g && step == KeyboardFrame(g, true)
  }

  lemma LocalStepRetires(l: Link, step: Step, g: Generation)
    requires Retired(l, g) && !step.ResetFrame? && !step.KeyboardFrame? && !step.Answer?
    ensures Next(l, step).generation == l.generation && Retired(Next(l, step), g)
  {
  }

  lemma FrameRetires(l: Link, step: Step, g: Generation)
    requires Retired(l, g) && (step.ResetFrame? || step.KeyboardFrame? || step.Answer?) && !Grants(l, step, g)
    ensures Retired(Next(l, step), g)
  {
  }

  lemma RetiredAsksNothing(l: Link, step: Step, g: Generation)
    requires Retired(l, g) && l.generation == g && !Grants(l, step, g)
    ensures Next(l, step).trace.requests == l.trace.requests
  {
  }

  /** How many requests were made in a generation. */
  function Asked(l: Link, g: Generation): nat {
    CountOf(l.trace.requests, g)
  }

  lemma PumpAsksElsewhere(l: Link, g: Generation)
    requires l.generation != g
    ensures Asked(Pump(l), g) == Asked(l, g) && Asked(Drain(l), g) == Asked(l, g)
  {
    if l.writer && l.queue != [] {
      var requests := Pump(l).trace.requests;
      assert requests[..|requests| - 1] == l.trace.requests;
    }
  }

  lemma EnqueueAsksElsewhere(l: Link, bytes: seq<Byte>, visible: bool, g: Generation)
    requires l.generation != g
    ensures Asked(Enqueue(l, bytes, visible), g) == Asked(l, g)
  {
    PumpAsksElsewhere(Typing(l, bytes), g);
  }

  lemma ReplyAsksElsewhere(l: Link, generation: Generation, ok: bool, g: Generation)
    requires l.generation != g
    ensures Asked(Reply(l, generation, ok), g) == Asked(l, g)
  {
    PumpAsksElsewhere(l.(trace := l.trace.(inFlight := l.trace.inFlight - multiset{generation})), g);
  }

  /** Requests are made in the generation the lane has. */
  lemma StepAsksElsewhere(l: Link, step: Step, g: Generation)
    requires l.generation != g
    ensures Asked(Next(l, step), g) == Asked(l, g)
  {
    match step
    case Type(bytes, visible) => EnqueueAsksElsewhere(l, bytes, visible, g);
    case Insert(key, _) => PumpAsksElsewhere(Admit(l, Insertion(key)), g);
    case Answer(generation, ok) => ReplyAsksElsewhere(l, generation, ok, g);
    case Leave => PumpAsksElsewhere(l.(ready := false), g);
    case _ =>
  }

  lemma RetiredStep(l: Link, step: Step, g: Generation)
    requires Retired(l, g) && !Grants(l, step, g)
    ensures Retired(Next(l, step), g) && Asked(Next(l, step), g) == Asked(l, g)
  {
    if step.ResetFrame? || step.KeyboardFrame? || step.Answer? {
      FrameRetires(l, step, g);
    } else {
      LocalStepRetires(l, step, g);
    }
    if l.generation == g {
      RetiredAsksNothing(l, step, g);
    } else {
      StepAsksElsewhere(l, step, g);
    }
  }

  predicate Granted(l: Link, steps: seq<Step>, g: Generation)
    decreases |steps|
  {
    steps != [] && (Grants(l, steps[0], g) || Granted(Next(l, steps[0]), steps[1..], g))
  }

  /** At some point of the run the lane is a writer in that generation. */
  predicate WritesIn(l: Link, steps: seq<Step>, g: Generation)
    decreases |steps|
  {
    (l.generation == g && l.writer) || (steps != [] && WritesIn(Next(l, steps[0]), steps[1..], g))
  }

  /** A retired generation is writable again if and only if the server grants it again; until then it is never ready, and
      no request is made in it. */
  lemma {:induction false} RetiredRun(l: Link, steps: seq<Step>, g: Generation)
    requires Retired(l, g)
    ensures WritesIn(l, steps, g) <==> Granted(l, steps, g)
    ensures !Granted(l, steps, g) ==> Retired(Follow(l, steps), g) && Asked(Follow(l, steps), g) == Asked(l, g)
    decreases |steps|
  {
    if steps != [] && !Grants(l, steps[0], g) {
      RetiredStep(l, steps[0], g);
      RetiredRun(Next(l, steps[0]), steps[1..], g);
    }
  }

  lemma {:induction false} GrantedByFrame(l: Link, steps: seq<Step>, g: Generation)
    requires Granted(l, steps, g)
    ensures KeyboardFrame(g, true) in steps
    decreases |steps|
  {
    if !Grants(l, steps[0], g) {
      GrantedByFrame(Next(l, steps[0]), steps[1..], g);
    }
  }

  /** Once a writer is frozen for a stop, or its input given up, its generation is writable again if and only if the server
      grants it again. Unless it does, whatever else follows, input started anew and other stops included, it is never
      ready and sends nothing more. */
  lemma StoppedWritesOnlyIfGranted(l: Link, stopped: Link, steps: seq<Step>)
    requires stopped == Frozen(l, true) || stopped == Lost(l)
    ensures var g := l.generation;
            var n := Follow(stopped, steps);
            && (WritesIn(stopped, steps, g) <==> Granted(stopped, steps, g))
            && (Granted(stopped, steps, g) ==> KeyboardFrame(g, true) in steps)
            && (!Granted(stopped, steps, g) ==>
                  (n.generation == g ==> !n.writer && !n.ready) && Asked(n, g) == Asked(l, g))
  {
    RetiredRun(stopped, steps, l.generation);
    if Granted(stopped, steps, l.generation) {
      GrantedByFrame(stopped, steps, l.generation);
    }
  }

  /** The condition is real: granted again in the same generation, the lane is a writer, and then ready. */
  lemma GrantedAgainWrites(l: Link, stopped: Link)
    requires stopped == Frozen(l, true) || stopped == Lost(l)
    ensures var n := Follow(stopped, [KeyboardFrame(l.generation, true)] + [Enter]);
            n.generation == l.generation && n.writer && n.ready
  {
    var again := [KeyboardFrame(l.generation, true)] + [Enter];
    var m := Next(stopped, KeyboardFrame(l.generation, true));
    assert again[1..] == [Enter];
    assert Follow(stopped, again) == Follow(m, [Enter]);
    assert Follow(m, [Enter]) == Follow(Next(m, Enter), [Enter][1..]);
  }

  // ---- Generations must be new ----

  lemma RunSnoc(steps: seq<Step>, step: Step)
    ensures Run(steps + [step]) == Next(Run(steps), step)
  {
    assert (steps + [step])[..|steps|] == steps;
  }

  const LetterA: seq<Byte> := [65]

  /** A fresh start of the connection in which one letter is typed. */
  function OneLetter(generation: Generation): seq<Step> {
    [ResetFrame(generation), KeyboardFrame(generation, true), Enter, Type(LetterA, true)]
  }

  lemma TypedLetter(l: Link)
    requires l.writer && l.ready && !l.sending && l.queue == [] && l.bytes == 0 && l.number == 0
    ensures var n := Enqueue(l, LetterA, true);
            && n.trace.requests == l.trace.requests + [Request(l.generation, 1, Typed(LetterA, true))]
            && n.trace.inFlight == l.trace.inFlight + multiset{l.generation}
  {
    assert Chunks(LetterA, true) == [Typed(LetterA, true)];
  }

  lemma AfterOneLetter(before: seq<Step>, generation: Generation)
    ensures var l, n := Run(before), Run(before + OneLetter(generation));
            && n.trace.requests == l.trace.requests + [Request(generation, 1, Typed(LetterA, true))]
            && n.trace.inFlight == l.trace.inFlight + multiset{generation}
  {
    var s := OneLetter(generation);
    var s1, s2, s3 := before + [s[0]], before + [s[0]] + [s[1]], before + [s[0]] + [s[1]] + [s[2]];
    RunSnoc(before, s[0]);
    RunSnoc(s1, s[1]);
    RunSnoc(s2, s[2]);
    RunSnoc(s3, s[3]);
    assert before + s == s3 + [s[3]];
    TypedLetter(Run(s3));
  }

  /** The hypothesis on generations is needed: reset to the generation it already has, with a request in flight, the lane
      sends the same number twice and has two requests in flight. */
  lemma ReusedGenerationRepeatsNumbers(generation: Generation)
    ensures var l := Run(OneLetter(generation) + OneLetter(generation));
            l.trace.inFlight[generation] == 2 && !Numbered(l.trace.requests)
  {
    AfterOneLetter([], generation);
    assert [] + OneLetter(generation) == OneLetter(generation);
    AfterOneLetter(OneLetter(generation), generation);
    var once := [Request(generation, 1, Typed(LetterA, true))];
    var r := Run(OneLetter(generation) + OneLetter(generation)).trace.requests;
    assert r == once + once && r[..1] == once && once[..0] == [];
    assert CountOf(once, generation) == 1;
  }
}
