/** One terminal of the page and its connections, as objects the handlers update in place. Each handler is proved to make
    the step of `TerminalInput` it stands for, on the connection it concerns and on no other. */
module NativeTerminals {
  import opened Options
  import opened Text
  import opened TerminalInput

  /** The record kept for one connection. The events admitted, what was sent and what is unanswered are for the proofs. */
  class Connection {
    const id: string
    var generation: Generation
    var writer: bool
    var ready: bool
    var failed: bool
    var number: nat
    var queue: seq<Queued>
    var bytes: nat
    var sending: bool
    ghost var trace: Trace

    ghost function Lane(): Link
      reads this
    {
      Link(generation, writer, ready, failed, number, queue, bytes, sending, trace)
    }

    constructor (id: string)
      ensures Lane() == Opened && this.id == id
    {
      this.id := id;
      generation, writer, ready, failed, number, queue, bytes, sending := "", false, false, false, 0, [], 0, false;
      trace := Opened.trace;
    }
  }

  datatype FrozenWriter = FrozenWriter(connection: Connection, generation: Generation, frames: nat)
  datatype Freezing = NotWriting | StillSending | Held(state: FrozenWriter)

  /** A writer as the server lists it. */
  datatype Writer = Writer(connectionId: string, generation: Generation, revision: nat, live: bool)

  class NativeTerminal {
    var live: Connection?
    var connected: bool
    var busy: bool
    var frames: nat

    /** Input is ready only while connected, and the byte counter is the content of the queue. */
    ghost predicate Valid()
      reads this, live
    {
      live != null ==>
        && (live.ready ==> connected) && (live.writer ==> connected || live.generation == "")
        && Counted(live.Lane())
    }

    /** The live connection's socket has not closed; a closed one delivers no frame. */
    predicate Open()
      requires live != null
      reads this, live
    {
      connected || live.generation == ""
    }

    constructor ()
      ensures Valid() && live == null && !connected && !busy
    {
      live, connected, busy, frames := null, false, false, 0;
    }

    /** Starts a new connection; the terminal is connected once its first reset frame arrives. */
    method Connect(id: string)
      modifies this`live, this`connected
      ensures Valid() && fresh(live) && live.id == id && live.Lane() == Opened && !connected
    {
      live := new Connection(id);
      connected := false;
    }

    method LoseInput(c: Connection?, generation: Generation)
      requires Valid()
      modifies this`busy, live
      ensures Valid()
      ensures c != null && live == c && old(c.generation) == generation ==> c.Lane() == Lost(old(c.Lane())) && !busy
      ensures !(c != null && live == c && old(c.generation) == generation) ==>
                busy == old(busy) && (live != null ==> live.Lane() == old(live.Lane()))
    {
      if c == null || live != c || c.generation != generation { return; }
      c.writer, c.ready, c.failed, c.queue, c.bytes := false, false, true, [], 0;
      c.trace := c.trace.(events := [], sent := []);
      busy := false;
    }

    /** The draining loop from one wait to the next: it posts the next item, or ends. */
    method Turn(c: Connection, generation: Generation) returns (request: Option<Request>)
      requires Valid() && live == c && c.generation == generation
      modifies c
      ensures Valid() && c.Lane() == Pump(old(c.Lane()))
      ensures c.trace.requests == old(c.trace.requests) + if request.Some? then [request.value] else []
    {
      if c.writer && c.generation == generation && c.queue != [] && live == c {
        var item := c.queue[0];
        assert Size(item) <= Weight(c.queue);
        PumpKeepsCount(c.Lane());
        c.queue := c.queue[1..];
        if item.Typed? {
          c.bytes := c.bytes - |item.bytes|;
        }
        c.number := c.number + 1;
        c.sending := true;
        request := Some(Request(generation, c.number, item));
        c.trace := c.trace.(sent := c.trace.sent + [item], requests := c.trace.requests + [request.value],
                            inFlight := c.trace.inFlight + multiset{generation});
      } else {
        c.sending := false;
        request := None;
      }
    }

    method Drain() returns (request: Option<Request>)
      requires Valid() && live != null
      modifies live
      ensures Valid() && live.Lane() == TerminalInput.Drain(old(live.Lane()))
      ensures live.trace.requests == old(live.trace.requests) + if request.Some? then [request.value] else []
    {
      request := None;
      var c := live;
      if !c.writer || c.sending { return; }
      request := Turn(c, c.generation);
    }

    /** The loop goes on when a request is answered; `ok` is a matching receipt. */
    method Answered(c: Connection, generation: Generation, ok: bool) returns (request: Option<Request>)
      requires Valid() && live == c && generation in c.trace.inFlight
      modifies this`busy, c
      ensures Valid() && c.Lane() == Reply(old(c.Lane()), generation, ok)
      ensures c.trace.requests == old(c.trace.requests) + if request.Some? then [request.value] else []
    {
      c.trace := c.trace.(inFlight := c.trace.inFlight - multiset{generation});
      request := None;
      if c.generation != generation { return; }
      if ok {
        request := Turn(c, generation);
      } else {
        LoseInput(c, generation);
        c.sending := false;
      }
    }

    method Enqueue(bytes: seq<Byte>, visible: bool) returns (request: Option<Request>)
      requires Valid()
      modifies this`busy, live
      ensures Valid()
      ensures live != null ==> live.Lane() == TerminalInput.Enqueue(old(live.Lane()), bytes, visible)
      ensures live != null ==>
                live.trace.requests == old(live.trace.requests) + if request.Some? then [request.value] else []
    {
      request := None;
      var c := live;
      if c == null || !c.writer || !c.ready || !visible { return; }
      if |bytes| + c.bytes > QUEUE_LIMIT {
        LoseInput(c, c.generation);
        return;
      }
      TypingKeepsCount(c.Lane(), bytes);
      PushChunks(c, bytes);
      request := Drain();
    }

    /** Cuts the bytes into chunks at the end of the queue, the first marked as the start. */
    method PushChunks(c: Connection, bytes: seq<Byte>)
      modifies c`queue, c`bytes, c`trace
      ensures c.Lane() == Typing(old(c.Lane()), bytes)
    {
      var i := 0;
      while i < |bytes|
        invariant 0 <= i <= |bytes|
        invariant c.queue + Chunks(bytes[i..], i == 0) == old(c.queue) + Chunks(bytes, true)
        invariant c.bytes == old(c.bytes) && c.trace == old(c.trace)
      {
        ghost var rest := bytes[i..];
        var chunk := Typed(Take(bytes[i..], CHUNK), i == 0);
        assert Chunks(rest, i == 0) == [chunk] + Chunks(rest[|chunk.bytes|..], false);
        Assoc(c.queue, [chunk], Chunks(rest[|chunk.bytes|..], false));
        c.queue := c.queue + [chunk];
        i := i + |chunk.bytes|;
        assert bytes[i..] == rest[|chunk.bytes|..];
      }
      assert Chunks(bytes[i..], i == 0) == [];
      assert c.queue + [] == c.queue && old(c.queue) + [] == old(c.queue);
      if bytes != [] {
        c.trace := c.trace.(events := c.trace.events + [Keys(bytes)]);
      }
      c.bytes := c.bytes + |bytes|;
    }

    method InsertImage(key: string, visible: bool) returns (request: Option<Request>)
      requires Valid()
      modifies live
      ensures Valid()
      ensures live != null ==> live.Lane() == TerminalInput.InsertImage(old(live.Lane()), key, visible)
      ensures live != null ==>
                live.trace.requests == old(live.trace.requests) + if request.Some? then [request.value] else []
    {
      request := None;
      var c := live;
      if c == null || !c.ready || !c.writer || !visible { return; }
      if c.queue != [] || c.sending { return; }
      WeightConcat(c.queue, [Image(key)]);
      assert Weight([Image(key)]) == 0;
      c.queue := c.queue + [Image(key)];
      c.trace := c.trace.(events := c.trace.events + [Insertion(key)]);
      request := Drain();
    }

    method ClearTransient()
      requires Valid()
      modifies live
      ensures Valid()
      ensures live != null ==> live.Lane() == TerminalInput.ClearTransient(old(live.Lane()))
    {
      var c := live;
      if c == null { return; }
      ClearKeepsCount(c.Lane());
      var next := FirstStart(c.queue);
      if next == |c.queue| { return; }
      c.trace := c.trace.(events := Without(c.trace.events, StartsIn(c.queue[next..])));
      c.queue := c.queue[..next];
      c.bytes := Weight(c.queue);
    }

    /** A reset frame of the live connection. */
    method OnReset(generation: Generation)
      requires Valid() && live != null
      modifies this`connected, this`frames, live
      ensures Valid() && live.Lane() == Reset(old(live.Lane()), generation) && connected && frames == old(frames) + 1
    {
      var c := live;
      c.generation, c.writer, c.ready, c.number, c.queue, c.bytes, c.sending := generation, false, false, 0, [], 0, false;
      c.trace := c.trace.(events := [], sent := [], seen := c.trace.seen + {generation});
      frames := frames + 1;
      connected := true;
    }

    /** A keyboard frame; one of another generation is ignored. */
    method OnKeyboard(generation: Generation, writer: bool)
      requires Valid() && live != null && Open()
      modifies this`frames, live
      ensures Valid() && live.Lane() == Keyboard(old(live.Lane()), generation, writer)
      ensures frames == old(frames) + if generation == old(live.generation) then 1 else 0
    {
      var c := live;
      if generation != c.generation { return; }
      frames := frames + 1;
      c.writer := writer;
      if !writer {
        c.ready := false;
      }
    }

    /** The end of starting input: the keyboard was granted for `generation`, and output before it has been parsed. */
    method StartTyping(c: Connection, granted: bool, generation: Generation)
      requires Valid() && generation != ""
      modifies live
      ensures Valid()
      ensures live == c && granted && old(c.writer) && old(c.generation) == generation ==> c.Lane() == Next(old(c.Lane()), Enter)
      ensures live == c && !(granted && old(c.writer) && old(c.generation) == generation) ==>
                c.Lane() == old(c.Lane()).(failed := true)
      ensures live != null && live != c ==> live.Lane() == old(live.Lane())
    {
      if live != c { return; }
      if !granted || !c.writer || generation != c.generation {
        c.failed := true;
      } else {
        c.ready := true;
      }
    }

    /** Leaving input: no new keys, while those queued finish. */
    method StopTyping() returns (request: Option<Request>)
      requires Valid()
      modifies this`busy, live
      ensures Valid()
      ensures live != null && old(live.writer) && !old(busy) ==> busy && live.Lane() == Next(old(live.Lane()), Leave)
      ensures live != null && !(old(live.writer) && !old(busy)) ==> busy == old(busy) && live.Lane() == old(live.Lane())
    {
      request := None;
      if live == null || !live.writer || busy { return; }
      busy := true;
      live.ready := false;
      request := Drain();
    }

    method OnClose()
      requires Valid() && live != null
      modifies this`connected, live
      ensures Valid() && live.Lane() == Lost(old(live.Lane())) && !connected
    {
      var c := live;
      c.writer, c.ready, c.failed, c.queue, c.bytes := false, false, true, [], 0;
      c.trace := c.trace.(events := [], sent := []);
      connected := false;
    }

    // ---- The handle used by stop decisions ----

    predicate Matches(w: Writer)
      reads this, live
    {
      live != null && live.ready && live.writer && live.id == w.connectionId && live.generation == w.generation
    }

    method Freeze(allowPending: bool, pasting: bool) returns (r: Freezing)
      requires Valid()
      modifies this`busy, live
      ensures Valid()
      ensures r.Held? <==> live != null && old(live.writer && live.ready) && (allowPending || (old(!live.sending && live.queue == []) && !pasting))
      ensures r.NotWriting? <==> live == null || !old(live.writer)
      ensures !r.Held? ==> busy == old(busy) && (live != null ==> live.Lane() == old(live.Lane()))
      ensures r.Held? ==> busy && live.Lane() == Frozen(old(live.Lane()), allowPending)
                          && r.state == FrozenWriter(live, live.generation, frames)
    {
      var c := live;
      if c == null || !c.writer { return NotWriting; }
      if !c.ready || (!allowPending && (c.sending || c.queue != [] || pasting)) { return StillSending; }
      if allowPending {
        c.queue, c.bytes := [], 0;
        c.trace := c.trace.(events := [], sent := []);
      }
      busy := true;
      c.writer, c.ready := false, false;
      ClearTransient();
      return Held(FrozenWriter(c, c.generation, frames));
    }

    /** Gives a frozen writer back, only if its connection, generation and frames are unchanged and it is connected. */
    method Thaw(f: FrozenWriter) returns (thawed: bool)
      requires Valid()
      modifies this`busy, live
      ensures Valid()
      ensures thawed <==> live == f.connection && old(f.connection.generation) == f.generation && frames == f.frames && connected
      ensures thawed ==> !busy && live.Lane() == old(live.Lane()).(writer := true, ready := true)
      ensures !thawed ==> busy == old(busy) && (live != null ==> live.Lane() == old(live.Lane()))
    {
      var c := live;
      if c == null || f.connection != c || c.generation != f.generation || frames != f.frames || !connected { return false; }
      busy := false;
      c.writer, c.ready := true, true;
      return true;
    }

    method Stopped(f: FrozenWriter)
      requires Valid()
      modifies this`busy
      ensures Valid() && busy == (old(busy) && live != f.connection)
    {
      if live == f.connection {
        busy := false;
      }
    }

    method Abandon()
      requires Valid()
      modifies this`busy, live
      ensures Valid()
      ensures live != null ==> live.Lane() == Lost(old(live.Lane())) && !busy
      ensures live == null ==> busy == old(busy)
    {
      if live != null {
        LoseInput(live, live.generation);
      }
    }
  }
}
