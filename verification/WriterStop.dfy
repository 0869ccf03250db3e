/** Stopping the displayed writers of one manual-input record: every terminal of this page is frozen before the request is
    sent, given back if it never is, and given up if its answer is not a matching receipt. */
module WriterStop {
  import opened Options
  import opened TerminalInput
  import opened NativeTerminals

  datatype ManualSession = ManualSession(id: string, bootId: string, revision: nat, writers: seq<Writer>)

  /** The session a stop answers with; its writers may be missing. */
  datatype Receipt = Receipt(id: string, bootId: string, revision: nat, writers: Option<seq<Writer>>)
  /** A refusal is definite; any other failure leaves the result unknown. */
  datatype Answer<+T> = Success(value: T) | Refused | Unknown

  datatype StopRequest = StopRequest(bootId: string, manualId: string, revision: nat, writers: seq<Writer>)

  function Asking(manual: ManualSession, writers: seq<Writer>): StopRequest {
    StopRequest(manual.bootId, manual.id, manual.revision, writers)
  }

  datatype FrozenTerminal = FrozenTerminal(terminal: NativeTerminal, state: FrozenWriter)

  predicate Ended(w: Writer, stopped: seq<Writer>) {
    exists k :: 0 <= k < |stopped| && stopped[k].connectionId == w.connectionId && stopped[k].generation == w.generation && !stopped[k].live
  }

  /** The receipt is of the requested record and boot, and lists each selected writer as no longer live. */
  predicate Matching(q: StopRequest, r: Receipt) {
    && r.id == q.manualId && r.bootId == q.bootId && r.writers.Some?
    && forall i :: 0 <= i < |q.writers| ==> Ended(q.writers[i], r.writers.value)
  }

  // ---- The page ----

  /** A terminal as it stands, with the lane of its live connection. */
  datatype Snapshot = Snapshot(live: Connection?, connected: bool, busy: bool, frames: nat, lane: Link)

  type World = map<NativeTerminal, Snapshot>

  ghost function Snap(t: NativeTerminal): Snapshot
    reads t, t.live
  {
    Snapshot(t.live, t.connected, t.busy, t.frames, if t.live == null then Opened else t.live.Lane())
  }

  ghost function Page(terminals: set<NativeTerminal>): (world: World)
    ensures world.Keys == terminals
    reads terminals, set t <- terminals :: t.live
  {
    map t <- terminals :: Snap(t)
  }

  /** The page's terminals are sound, and no two share a connection. */
  ghost predicate Apart(terminals: set<NativeTerminal>)
    reads terminals, set t <- terminals :: t.live
  {
    && (forall t <- terminals :: t.Valid())
    && (forall s <- terminals, t <- terminals | s != t && s.live != null :: s.live != t.live)
  }

  ghost predicate WritesFor(s: Snapshot, w: Writer) {
    s.live != null && s.lane.ready && s.lane.writer && s.live.id == w.connectionId && s.lane.generation == w.generation
  }

  ghost function Stopping(s: Snapshot): Snapshot {
    s.(busy := true, lane := Emptied(s.lane).(writer := false, ready := false))
  }

  /** Writing again; the unsent input is gone. */
  ghost function Restored(s: Snapshot): Snapshot {
    s.(busy := false, lane := Emptied(s.lane).(writer := true, ready := true))
  }

  ghost function GivenUp(s: Snapshot): Snapshot {
    if s.live == null then s else s.(busy := false, lane := Lost(s.lane))
  }

  predicate Among(t: NativeTerminal, frozen: seq<FrozenTerminal>) {
    exists k :: 0 <= k < |frozen| && frozen[k].terminal == t
  }

  predicate Distinct(frozen: seq<FrozenTerminal>) {
    forall j, k :: 0 <= j < k < |frozen| ==> frozen[j].terminal != frozen[k].terminal
  }

  /** A frozen terminal stands for the listed writer. */
  predicate StandsFor(f: FrozenTerminal, w: Writer) {
    f.state.connection.id == w.connectionId && f.state.generation == w.generation
  }

  predicate Covered(w: Writer, frozen: seq<FrozenTerminal>) {
    exists k :: 0 <= k < |frozen| && StandsFor(frozen[k], w)
  }

  /** The page after `change` befell exactly the frozen terminals. */
  ghost function Changed(world: World, frozen: seq<FrozenTerminal>, change: Snapshot -> Snapshot): World {
    map t <- world :: if Among(t, frozen) then change(world[t]) else world[t]
  }

  /** The state was taken from the terminal as it stood, and it was writing. */
  ghost predicate Recorded(f: FrozenTerminal, world: World) {
    && f.terminal in world && f.state.connection == world[f.terminal].live
    && f.state.generation == world[f.terminal].lane.generation && f.state.frames == world[f.terminal].frames
    && world[f.terminal].lane.writer && world[f.terminal].lane.ready && world[f.terminal].connected
  }

  lemma ChangedStep(world: World, frozen: seq<FrozenTerminal>, f: FrozenTerminal, change: Snapshot -> Snapshot)
    requires f.terminal in world && !Among(f.terminal, frozen)
    ensures Changed(world, frozen, change)[f.terminal := change(world[f.terminal])] == Changed(world, frozen + [f], change)
  {
    forall t <- world
      ensures Among(t, frozen + [f]) <==> Among(t, frozen) || t == f.terminal
    {
      AmongMore(t, frozen, f);
    }
  }

  lemma AmongMore(t: NativeTerminal, frozen: seq<FrozenTerminal>, f: FrozenTerminal)
    ensures Among(t, frozen + [f]) <==> Among(t, frozen) || t == f.terminal
  {
    var more := frozen + [f];
    assert more[|frozen|] == f;
    if Among(t, frozen) {
      var k :| 0 <= k < |frozen| && frozen[k].terminal == t;
      assert more[k] == frozen[k];
    }
  }

  // ---- One terminal ----

  method FreezeOne(t: NativeTerminal, ghost terminals: set<NativeTerminal>) returns (f: FrozenTerminal)
    requires Apart(terminals) && t in terminals && t.live != null && t.live.writer && t.live.ready
    modifies t, t.live
    ensures Apart(terminals) && f.terminal == t && Recorded(f, old(Page(terminals)))
    ensures Page(terminals) == old(Page(terminals))[t := Stopping(old(Snap(t)))]
  {
    var r := t.Freeze(true, false);
    f := FrozenTerminal(t, r.state);
  }

  /** A frozen terminal nothing has happened to since is given back. */
  method ThawOne(f: FrozenTerminal, ghost terminals: set<NativeTerminal>, ghost world: World)
    requires Apart(terminals) && f.terminal in terminals && Recorded(f, world)
    requires Snap(f.terminal) == Stopping(world[f.terminal])
    modifies f.terminal, f.terminal.live
    ensures Apart(terminals)
    ensures Page(terminals) == old(Page(terminals))[f.terminal := Restored(world[f.terminal])]
  {
    var thawed := f.terminal.Thaw(f.state);
  }

  // ---- Which writers the frozen terminals stand for ----

  predicate Named(t: NativeTerminal, writers: seq<Writer>, handle: map<Writer, NativeTerminal>) {
    exists j :: 0 <= j < |writers| && writers[j] in handle && handle[writers[j]] == t
  }

  /** The writer's terminal is named by an earlier writer too. */
  predicate Repeated(writers: seq<Writer>, i: nat, handle: map<Writer, NativeTerminal>)
    requires i < |writers|
  {
    writers[i] in handle && Named(handle[writers[i]], writers[..i], handle)
  }

  /** After the first `i` writers; `matched` are those a terminal of this page was writing for. */
  predicate Progress(writers: seq<Writer>, i: nat, frozen: seq<FrozenTerminal>, handle: map<Writer, NativeTerminal>,
                     remote: bool, matched: set<Writer>)
    requires i <= |writers|
  {
    && (forall j :: 0 <= j < i ==> Covered(writers[j], frozen) || (remote && writers[j] !in matched))
    && (forall k :: 0 <= k < |frozen| ==> Named(frozen[k].terminal, writers[..i], handle))
    && (!remote ==> forall j :: 0 <= j < i ==> Alone(writers, j, frozen, handle, matched))
  }

  predicate Alone(writers: seq<Writer>, j: nat, frozen: seq<FrozenTerminal>, handle: map<Writer, NativeTerminal>, matched: set<Writer>)
    requires j < |writers|
  {
    && writers[j] in handle && writers[j] in matched && !Repeated(writers, j, handle)
    && Among(handle[writers[j]], frozen)
  }

  lemma LongerList(frozen: seq<FrozenTerminal>, f: FrozenTerminal, w: Writer)
    ensures Covered(w, frozen) ==> Covered(w, frozen + [f])
    ensures StandsFor(f, w) ==> Covered(w, frozen + [f])
  {
    var more := frozen + [f];
    assert more[|frozen|] == f;
    if Covered(w, frozen) {
      var k :| 0 <= k < |frozen| && StandsFor(frozen[k], w);
      assert more[k] == frozen[k];
    }
  }

  lemma NamedLater(t: NativeTerminal, writers: seq<Writer>, i: nat, handle: map<Writer, NativeTerminal>)
    requires i < |writers|
    ensures Named(t, writers[..i], handle) ==> Named(t, writers[..i + 1], handle)
    ensures writers[i] in handle && handle[writers[i]] == t ==> Named(t, writers[..i + 1], handle)
  {
    assert writers[..i + 1][i] == writers[i];
    if Named(t, writers[..i], handle) {
      var j :| 0 <= j < i && writers[..i][j] in handle && handle[writers[..i][j]] == t;
      assert writers[..i + 1][j] == writers[j];
    }
  }

  lemma SkipProgress(writers: seq<Writer>, i: nat, frozen: seq<FrozenTerminal>, handle: map<Writer, NativeTerminal>, matched: set<Writer>)
    requires i < |writers| && Progress(writers, i, frozen, handle, true, matched)
    requires Covered(writers[i], frozen) || writers[i] !in matched
    ensures Progress(writers, i + 1, frozen, handle, true, matched)
  {
    forall k | 0 <= k < |frozen|
      ensures Named(frozen[k].terminal, writers[..i + 1], handle)
    {
      NamedLater(frozen[k].terminal, writers, i, handle);
    }
  }

  lemma FreezeProgress(writers: seq<Writer>, i: nat, frozen: seq<FrozenTerminal>, f: FrozenTerminal,
                       handle: map<Writer, NativeTerminal>, remote: bool, matched: set<Writer>)
    requires i < |writers| && Progress(writers, i, frozen, handle, remote, matched)
    requires writers[i] in handle && writers[i] in matched && f.terminal == handle[writers[i]] && !Among(f.terminal, frozen)
    requires StandsFor(f, writers[i]) && (!remote ==> !Repeated(writers, i, handle))
    ensures Progress(writers, i + 1, frozen + [f], handle, remote, matched)
  {
    var more := frozen + [f];
    forall j | 0 <= j < i + 1
      ensures Covered(writers[j], more) || (remote && writers[j] !in matched)
      ensures !remote ==> Alone(writers, j, more, handle, matched)
    {
      LongerList(frozen, f, writers[j]);
      if writers[j] in handle {
        AmongMore(handle[writers[j]], frozen, f);
      }
      if j < i && !remote {
        assert Alone(writers, j, frozen, handle, matched);
      }
    }
    forall k | 0 <= k < |more|
      ensures Named(more[k].terminal, writers[..i + 1], handle)
    {
      NamedLater(more[k].terminal, writers, i, handle);
      if k < |frozen| {
        assert more[k] == frozen[k];
      }
    }
  }

  /** Without `remote`, a frozen terminal and the writers named so far name each other. */
  lemma RepeatedIsFrozen(writers: seq<Writer>, i: nat, frozen: seq<FrozenTerminal>, handle: map<Writer, NativeTerminal>, matched: set<Writer>)
    requires i < |writers| && Progress(writers, i, frozen, handle, false, matched) && writers[i] in handle
    ensures Repeated(writers, i, handle) <==> Among(handle[writers[i]], frozen)
  {
    var t := handle[writers[i]];
    if Named(t, writers[..i], handle) {
      var j :| 0 <= j < i && writers[..i][j] in handle && handle[writers[..i][j]] == t;
      assert Alone(writers, j, frozen, handle, matched);
    }
  }

  ghost function Matched(handle: map<Writer, NativeTerminal>, world: World): set<Writer>
    requires handle.Values <= world.Keys
  {
    set w <- handle | WritesFor(world[handle[w]], w)
  }

  // ---- The decision ----

  /** Some writer has no terminal of this page writing for it, or one that an earlier writer named. */
  ghost predicate Unmatched(writers: seq<Writer>, handle: map<Writer, NativeTerminal>, matched: set<Writer>) {
    exists i :: 0 <= i < |writers| && (writers[i] !in matched || Repeated(writers, i, handle))
  }

  lemma NotWritingNow(w: Writer, frozen: seq<FrozenTerminal>, handle: map<Writer, NativeTerminal>, world: World)
    requires handle.Values <= world.Keys && w in handle
    requires forall k :: 0 <= k < |frozen| ==> Recorded(frozen[k], world)
    requires !WritesFor(Changed(world, frozen, Stopping)[handle[w]], w)
    ensures w in Matched(handle, world) ==> Among(handle[w], frozen) && Covered(w, frozen)
  {
    if w in Matched(handle, world) {
      var k :| 0 <= k < |frozen| && frozen[k].terminal == handle[w];
      assert Recorded(frozen[k], world) && StandsFor(frozen[k], w);
    }
  }

  lemma WritingNow(w: Writer, frozen: seq<FrozenTerminal>, handle: map<Writer, NativeTerminal>, world: World)
    requires handle.Values <= world.Keys && w in handle && WritesFor(Changed(world, frozen, Stopping)[handle[w]], w)
    ensures w in Matched(handle, world) && !Among(handle[w], frozen)
  {
  }

  /** After the first `i` writers, none of which was missing. */
  ghost predicate Midway(writers: seq<Writer>, i: nat, frozen: seq<FrozenTerminal>, handle: map<Writer, NativeTerminal>,
                         remote: bool, world: World)
    requires i <= |writers| && handle.Values <= world.Keys
  {
    && Distinct(frozen) && (forall k :: 0 <= k < |frozen| ==> Recorded(frozen[k], world))
    && Progress(writers, i, frozen, handle, remote, Matched(handle, world))
  }

  lemma PassOver(writers: seq<Writer>, i: nat, frozen: seq<FrozenTerminal>, handle: map<Writer, NativeTerminal>, remote: bool, world: World)
    requires handle.Values <= world.Keys && i < |writers| && Midway(writers, i, frozen, handle, remote, world)
    requires writers[i] in handle ==> !WritesFor(Changed(world, frozen, Stopping)[handle[writers[i]]], writers[i])
    ensures if remote then Midway(writers, i + 1, frozen, handle, remote, world) else Unmatched(writers, handle, Matched(handle, world))
  {
    var matched := Matched(handle, world);
    if writers[i] in handle {
      NotWritingNow(writers[i], frozen, handle, world);
    }
    if remote {
      SkipProgress(writers, i, frozen, handle, matched);
    } else if writers[i] in matched {
      RepeatedIsFrozen(writers, i, frozen, handle, matched);
    }
  }

  lemma OneMore(writers: seq<Writer>, i: nat, frozen: seq<FrozenTerminal>, f: FrozenTerminal, handle: map<Writer, NativeTerminal>,
                remote: bool, world: World)
    requires handle.Values <= world.Keys && i < |writers| && Midway(writers, i, frozen, handle, remote, world)
    requires writers[i] in handle && f.terminal == handle[writers[i]]
    requires WritesFor(Changed(world, frozen, Stopping)[handle[writers[i]]], writers[i])
    requires Recorded(f, Changed(world, frozen, Stopping))
    ensures Midway(writers, i + 1, frozen + [f], handle, remote, world)
    ensures Changed(world, frozen, Stopping)[f.terminal := Stopping(Changed(world, frozen, Stopping)[f.terminal])] == Changed(world, frozen + [f], Stopping)
  {
    WritingNow(writers[i], frozen, handle, world);
    RecordedFirst(frozen, f, world);
    if !remote {
      RepeatedIsFrozen(writers, i, frozen, handle, Matched(handle, world));
    }
    FreezeProgress(writers, i, frozen, f, handle, remote, Matched(handle, world));
    ChangedStep(world, frozen, f, Stopping);
  }

  lemma RecordedFirst(frozen: seq<FrozenTerminal>, f: FrozenTerminal, world: World)
    requires Distinct(frozen) && (forall k :: 0 <= k < |frozen| ==> Recorded(frozen[k], world))
    requires f.terminal in world && !Among(f.terminal, frozen) && Recorded(f, Changed(world, frozen, Stopping))
    ensures var more := frozen + [f]; Distinct(more) && forall k :: 0 <= k < |more| ==> Recorded(more[k], world)
  {
  }

  /** Freezes the writer's terminal, if it is writing for it. */
  method FreezeFor(w: Writer, handle: map<Writer, NativeTerminal>) returns (r: Option<FrozenTerminal>)
    requires Apart(handle.Values)
    modifies handle.Values, set t <- handle.Values :: t.live
    ensures Apart(handle.Values) && forall t <- handle.Values :: t.live == old(t.live)
    ensures r.Some? <==> w in handle && WritesFor(old(Page(handle.Values))[handle[w]], w)
    ensures r.None? ==> Page(handle.Values) == old(Page(handle.Values))
    ensures r.Some? ==>
              && r.value.terminal == handle[w] && Recorded(r.value, old(Page(handle.Values)))
              && Page(handle.Values) == old(Page(handle.Values))[handle[w] := Stopping(old(Page(handle.Values))[handle[w]])]
  {
    if w !in handle || !handle[w].Matches(w) { return None; }
    var f := FreezeOne(handle[w], handle.Values);
    r := Some(f);
  }

  /** Freezes the terminal of each writer in turn, until one has none. */
  method FreezeEach(writers: seq<Writer>, handle: map<Writer, NativeTerminal>, remote: bool)
    returns (frozen: seq<FrozenTerminal>, failed: bool)
    requires Apart(handle.Values)
    modifies handle.Values, set t <- handle.Values :: t.live
    ensures Apart(handle.Values) && Distinct(frozen)
    ensures forall k :: 0 <= k < |frozen| ==> Recorded(frozen[k], old(Page(handle.Values)))
    ensures Page(handle.Values) == Changed(old(Page(handle.Values)), frozen, Stopping)
    ensures !failed ==> Progress(writers, |writers|, frozen, handle, remote, Matched(handle, old(Page(handle.Values))))
    ensures failed ==> !remote && Unmatched(writers, handle, Matched(handle, old(Page(handle.Values))))
  {
    ghost var world := Page(handle.Values);
    frozen, failed := [], false;
    for i := 0 to |writers|
      invariant Apart(handle.Values)
      invariant Midway(writers, i, frozen, handle, remote, world)
      invariant Page(handle.Values) == Changed(world, frozen, Stopping)
      invariant forall t <- handle.Values :: t.live == world[t].live
    {
      var f := FreezeFor(writers[i], handle);
      if f.None? {
        PassOver(writers, i, frozen, handle, remote, world);
        if !remote { return frozen, true; }
      } else {
        OneMore(writers, i, frozen, f.value, handle, remote, world);
        frozen := frozen + [f.value];
      }
    }
  }

  method ThawAll(frozen: seq<FrozenTerminal>, ghost terminals: set<NativeTerminal>, ghost world: World)
    requires Apart(terminals) && Distinct(frozen) && world.Keys == terminals
    requires forall k :: 0 <= k < |frozen| ==> Recorded(frozen[k], world)
    requires Page(terminals) == Changed(world, frozen, Stopping)
    modifies terminals, set t <- terminals :: t.live
    ensures Apart(terminals) && Page(terminals) == Changed(world, frozen, Restored)
  {
    for i := 0 to |frozen|
      invariant Apart(terminals)
      invariant Page(terminals) == Half(world, frozen, i)
      invariant forall t <- terminals :: t.live == world[t].live
    {
      HalfStep(world, frozen, i);
      ThawOne(frozen[i], terminals, world);
    }
  }

  /** The first `i` frozen terminals are given back. */
  ghost function Half(world: World, frozen: seq<FrozenTerminal>, i: nat): World
    requires i <= |frozen|
  {
    map t <- world :: if Among(t, frozen[..i]) then Restored(world[t]) else if Among(t, frozen) then Stopping(world[t]) else world[t]
  }

  lemma HalfStep(world: World, frozen: seq<FrozenTerminal>, i: nat)
    requires i < |frozen| && Distinct(frozen) && frozen[i].terminal in world
    ensures Half(world, frozen, i)[frozen[i].terminal] == Stopping(world[frozen[i].terminal])
    ensures Half(world, frozen, i + 1) == Half(world, frozen, i)[frozen[i].terminal := Restored(world[frozen[i].terminal])]
  {
    assert frozen[..i + 1] == frozen[..i] + [frozen[i]];
    forall t <- world
      ensures Among(t, frozen[..i + 1]) <==> Among(t, frozen[..i]) || t == frozen[i].terminal
    {
      AmongMore(t, frozen[..i], frozen[i]);
    }
  }

  lemma AllMatched(writers: seq<Writer>, frozen: seq<FrozenTerminal>, handle: map<Writer, NativeTerminal>, matched: set<Writer>)
    requires Progress(writers, |writers|, frozen, handle, false, matched)
    ensures !Unmatched(writers, handle, matched)
  {
    forall i | 0 <= i < |writers|
      ensures writers[i] in matched && !Repeated(writers, i, handle)
    {
      assert Alone(writers, i, frozen, handle, matched);
    }
  }

  /** The decision up to its request. Nothing is requested exactly when the stop is for this page only and some writer has no
      terminal of its own here; then the terminals frozen so far, and no others, are given back as they were, without their
      unsent input. Otherwise each writer listed has a frozen terminal, or none of this page was writing for it. */
  method RequestStop(manual: ManualSession, writers: seq<Writer>, handle: map<Writer, NativeTerminal>, remote: bool)
    returns (frozen: seq<FrozenTerminal>, request: Option<StopRequest>)
    requires Apart(handle.Values)
    modifies handle.Values, set t <- handle.Values :: t.live
    ensures Apart(handle.Values) && Distinct(frozen)
    ensures forall k :: 0 <= k < |frozen| ==> Recorded(frozen[k], old(Page(handle.Values)))
    ensures request.None? <==> !remote && Unmatched(writers, handle, Matched(handle, old(Page(handle.Values))))
    ensures request.None? ==> Page(handle.Values) == Changed(old(Page(handle.Values)), frozen, Restored)
    ensures request.Some? ==> Page(handle.Values) == Changed(old(Page(handle.Values)), frozen, Stopping)
    ensures request.Some? ==> request.value == StopRequest(manual.bootId, manual.id, manual.revision, writers)
    ensures request.Some? ==> forall i :: 0 <= i < |writers| ==>
              Covered(writers[i], frozen) || (remote && writers[i] !in Matched(handle, old(Page(handle.Values))))
  {
    ghost var world := Page(handle.Values);
    var failed;
    frozen, failed := FreezeEach(writers, handle, remote);
    if failed {
      ThawAll(frozen, handle.Values, world);
      return frozen, None;
    }
    if !remote {
      AllMatched(writers, frozen, handle, Matched(handle, world));
    }
    request := Some(Asking(manual, writers));
  }

  // ---- The answer ----

  method AbandonOne(t: NativeTerminal, ghost terminals: set<NativeTerminal>)
    requires Apart(terminals) && t in terminals
    modifies t, t.live
    ensures Apart(terminals) && t.live == old(t.live)
    ensures Page(terminals) == old(Page(terminals))[t := GivenUp(old(Snap(t)))]
  {
    t.Abandon();
  }

  method AbandonAll(frozen: seq<FrozenTerminal>, ghost terminals: set<NativeTerminal>)
    requires Apart(terminals) && Distinct(frozen)
    requires forall k :: 0 <= k < |frozen| ==> frozen[k].terminal in terminals
    modifies terminals, set t <- terminals :: t.live
    ensures Apart(terminals) && Page(terminals) == Changed(old(Page(terminals)), frozen, GivenUp)
  {
    ghost var world := Page(terminals);
    for i := 0 to |frozen|
      invariant Apart(terminals)
      invariant Page(terminals) == Changed(world, frozen[..i], GivenUp)
      invariant forall t <- terminals :: t.live == world[t].live
    {
      assert frozen[..i + 1] == frozen[..i] + [frozen[i]];
      ChangedStep(world, frozen[..i], frozen[i], GivenUp);
      AbandonOne(frozen[i].terminal, terminals);
    }
    assert frozen[..|frozen|] == frozen;
  }

  /** The terminals are free for a next decision; nothing else about them changes. */
  method StoppedAll(frozen: seq<FrozenTerminal>, ghost terminals: set<NativeTerminal>)
    requires Apart(terminals)
    requires forall k :: 0 <= k < |frozen| ==> frozen[k].terminal in terminals
    modifies terminals
    ensures Apart(terminals)
    ensures forall t <- terminals :: Snap(t) == old(Snap(t)).(busy := t.busy) && (t.busy ==> old(t.busy))
    ensures forall k :: 0 <= k < |frozen| && frozen[k].terminal.live == frozen[k].state.connection ==> !frozen[k].terminal.busy
  {
    for i := 0 to |frozen|
      invariant Apart(terminals)
      invariant forall t <- terminals :: Snap(t) == old(Snap(t)).(busy := t.busy) && (t.busy ==> old(t.busy))
      invariant forall k :: 0 <= k < i && frozen[k].terminal.live == frozen[k].state.connection ==> !frozen[k].terminal.busy
    {
      frozen[i].terminal.Stopped(frozen[i].state);
    }
  }

  /** The decision from its answer on, whatever became of the terminals in between: only a matching receipt counts as
      stopped; with any other answer every frozen terminal's input is given up. Neither lets a terminal write again. */
  method SettleStop(request: StopRequest, frozen: seq<FrozenTerminal>, answer: Answer<Receipt>,
                    ghost terminals: set<NativeTerminal>) returns (r: Option<ManualSession>)
    requires Apart(terminals) && Distinct(frozen)
    requires forall k :: 0 <= k < |frozen| ==> frozen[k].terminal in terminals
    modifies terminals, set t <- terminals :: t.live
    ensures Apart(terminals)
    ensures r.Some? <==> answer.Success? && answer.value.id == request.manualId && answer.value.bootId == request.bootId
                         && answer.value.writers.Some? && PairsOf(request.writers) <= EndedPairs(answer.value.writers.value)
    ensures r.Some? ==> r.value == ManualSession(answer.value.id, answer.value.bootId, answer.value.revision, answer.value.writers.value)
    ensures r.Some? ==> forall t <- terminals :: Snap(t) == old(Snap(t)).(busy := t.busy) && (t.busy ==> old(t.busy))
    ensures r.None? ==> Page(terminals) == Changed(old(Page(terminals)), frozen, GivenUp)
  {
    if answer.Success? {
      MatchingListsAll(request, answer.value);
    }
    if answer.Success? && Matching(request, answer.value) {
      StoppedAll(frozen, terminals);
      return Some(Session(answer.value));
    }
    AbandonAll(frozen, terminals);
    r := None;
  }

  /** Connections with their generations: those of the writers, and those listed as no longer live. */
  function PairsOf(writers: seq<Writer>): set<(string, Generation)> {
    set w | w in writers :: (w.connectionId, w.generation)
  }

  function EndedPairs(listed: seq<Writer>): set<(string, Generation)> {
    set w | w in listed && !w.live :: (w.connectionId, w.generation)
  }

  /** A receipt matches exactly when it is of the requested record and boot and lists every requested writer as ended. */
  lemma MatchingListsAll(q: StopRequest, r: Receipt)
    ensures Matching(q, r) <==> r.id == q.manualId && r.bootId == q.bootId && r.writers.Some?
                                && PairsOf(q.writers) <= EndedPairs(r.writers.value)
  {
    if r.writers.Some? {
      var listed := r.writers.value;
      forall w | w in q.writers
        ensures Ended(w, listed) <==> (w.connectionId, w.generation) in EndedPairs(listed)
      {
        EndedIsListed(w, listed);
      }
      forall i | 0 <= i < |q.writers|
        ensures (q.writers[i].connectionId, q.writers[i].generation) in PairsOf(q.writers)
      {
        assert q.writers[i] in q.writers;
      }
    }
  }

  lemma EndedIsListed(w: Writer, listed: seq<Writer>)
    ensures Ended(w, listed) <==> (w.connectionId, w.generation) in EndedPairs(listed)
  {
    if (w.connectionId, w.generation) in EndedPairs(listed) {
      var s :| s in listed && !s.live && (s.connectionId, s.generation) == (w.connectionId, w.generation);
      var k :| 0 <= k < |listed| && listed[k] == s;
    }
    forall k | 0 <= k < |listed| && listed[k].connectionId == w.connectionId && listed[k].generation == w.generation && !listed[k].live
      ensures (w.connectionId, w.generation) in EndedPairs(listed)
    {
      assert listed[k] in listed;
    }
  }

  function Session(r: Receipt): ManualSession
    requires r.writers.Some?
  {
    ManualSession(r.id, r.bootId, r.revision, r.writers.value)
  }

  /** What the three outcomes leave of a terminal: stopped, it neither writes nor has input left; given back, it writes without
      its unsent input; given up, its connection has failed too. Its generation, numbers and requests stay as they are. */
  lemma OutcomesOfTerminals(s: Snapshot)
    requires s.live != null
    ensures forall after | after in [Stopping(s), Restored(s), GivenUp(s)] ::
              && after.live == s.live && after.connected == s.connected && after.frames == s.frames && after.lane.queue == []
              && after.lane.generation == s.lane.generation && after.lane.number == s.lane.number
              && after.lane.trace.requests == s.lane.trace.requests && after.lane.trace.inFlight == s.lane.trace.inFlight
    ensures !Stopping(s).lane.writer && !Stopping(s).lane.ready && Stopping(s).busy && Stopping(s).lane.failed == s.lane.failed
    ensures Restored(s).lane.writer && Restored(s).lane.ready && !Restored(s).busy && Restored(s).lane.failed == s.lane.failed
    ensures !GivenUp(s).lane.writer && !GivenUp(s).lane.ready && !GivenUp(s).busy && GivenUp(s).lane.failed
  {
  }

  /** A terminal given back has made the step of a stop that was never requested: it kept its connection, generation and numbers. */
  lemma RestoredIsGivenBack(f: FrozenTerminal, world: World)
    requires Recorded(f, world)
    ensures Restored(world[f.terminal]).lane == Next(world[f.terminal].lane, GiveBack)
  {
  }

  /** The lane was, or becomes, a writer in that generation before the answer or after it. */
  ghost predicate WritesAgain(stopped: Link, during: seq<Step>, settled: Link, after: seq<Step>, g: Generation) {
    WritesIn(stopped, during, g) || WritesIn(settled, after, g)
  }

  ghost predicate GrantedAgain(stopped: Link, during: seq<Step>, settled: Link, after: seq<Step>, g: Generation) {
    Granted(stopped, during, g) || Granted(settled, after, g)
  }

  /** After the request, a frozen generation becomes writable again if and only if the server grants it again, whatever
      happens while the answer is awaited and after it, input started anew included, and whether the stop was confirmed
      or the terminal abandoned. Unless it is, it is not ready, and not one more request is made in it. */
  lemma StopIsFinal(s: Snapshot, during: seq<Step>, confirmed: bool, after: seq<Step>)
    ensures var g, stopped := s.lane.generation, Stopping(s).lane;
            var waiting := Follow(stopped, during);
            var settled := if confirmed then waiting else Lost(waiting);
            var n := Follow(settled, after);
            && (WritesAgain(stopped, during, settled, after, g) <==> GrantedAgain(stopped, during, settled, after, g))
            && (GrantedAgain(stopped, during, settled, after, g) ==> KeyboardFrame(g, true) in during + after)
            && (!GrantedAgain(stopped, during, settled, after, g) ==>
                  (n.generation == g ==> !n.writer && !n.ready) && Asked(n, g) == Asked(s.lane, g))
  {
    var g, stopped := s.lane.generation, Stopping(s).lane;
    var waiting := Follow(stopped, during);
    var settled := if confirmed then waiting else Lost(waiting);
    RetiredRun(stopped, during, g);
    if Granted(stopped, during, g) {
      GrantedByFrame(stopped, during, g);
    } else {
      RetiredRun(settled, after, g);
      if Granted(settled, after, g) {
        GrantedByFrame(settled, after, g);
      }
    }
  }
}
