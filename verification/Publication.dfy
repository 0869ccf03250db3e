/** Acceptance of a published turn, and the tracked journal that a run of accepted turns leaves. Decoding of JSON text is
    a parameter: only its insensitivity to a final line feed (section 2 of RFC 8259) is used. */
module Publication {
  import opened Options
  import opened Characters
  import opened Text
  import opened CommitGraph

  const MAX_RESULT := 64 * 1024

  datatype Json = Null | Bool(value: bool) | Number(number: int) | String(text: string) | Array(items: seq<Json>)
                | Object(fields: map<string, Json>)

  type Decoder = string -> Option<Json>

  datatype Action = Work | Review | ReviewAndImprove

  datatype Identity = Identity(runId: string, commandId: string, turn: nat, policyRevision: nat, action: Action, agentId: string,
                               registrationId: string, parent: Sha, base: Sha, reviewBase: Option<Sha>, reviewHead: Option<Sha>)

  function ActionName(action: Action): string {
    match action
    case Work => "work"
    case Review => "review"
    case ReviewAndImprove => "review_and_improve"
  }

  function Nullable(s: Option<string>): Json {
    if s.Some? then String(s.value) else Null
  }

  function IdentityFields(id: Identity): map<string, Json> {
    map["schema" := Number(1), "runId" := String(id.runId), "commandId" := String(id.commandId), "turn" := Number(id.turn),
        "policyRevision" := Number(id.policyRevision), "phase" := String("implementation"), "action" := String(ActionName(id.action)),
        "agentId" := String(id.agentId), "registrationId" := String(id.registrationId), "parent" := String(id.parent),
        "base" := String(id.base), "reviewBase" := Nullable(id.reviewBase), "reviewHead" := Nullable(id.reviewHead)]
  }

  const RESULT_FIELDS: set<string> := {"model", "decision", "reason", "needsHuman", "summary", "checks"}

  predicate Prose(v: Json, limit: nat) {
    v.String? && !Blank(v.text) && Units(v.text) <= limit
  }

  /** The checks of a result object against the identity it was assigned. */
  predicate ValidEntry(raw: Json, id: Identity) {
    raw.Object?
    && raw.fields.Keys == IdentityFields(id).Keys + RESULT_FIELDS
    && (forall k <- IdentityFields(id) :: raw.fields[k] == IdentityFields(id)[k])
    && var f := raw.fields;
    && Prose(f["summary"], 16000) && Prose(f["model"], 200)
    && f["checks"].Array? && |f["checks"].items| <= 100
    && (forall i | 0 <= i < |f["checks"].items| :: f["checks"].items[i].String? && Units(f["checks"].items[i].text) <= 2000)
    && (f["reason"] == Null || (f["reason"].String? && Units(f["reason"].text) <= 16000))
    && f["needsHuman"].Bool? && !(f["decision"] == String("accept") && f["needsHuman"].value)
    && (if id.action == Work then f["decision"] == Null && f["reason"] == Null
        else f["decision"] == String("accept") || f["decision"] == String("object"))
    && (f["decision"] == String("object") ==> f["reason"].String? && !Blank(f["reason"].text))
  }

  predicate Objects(entry: Json) {
    entry.Object? && "decision" in entry.fields && entry.fields["decision"] == String("object")
  }

  /** What the tracked log holds at a commit; a missing file reads as the empty text. */
  function LogAt(repo: map<Sha, Commit>, sha: Sha, path: Path): string {
    if sha in repo && path in repo[sha].tree then repo[sha].tree[path] else ""
  }

  predicate EndsLine(s: string) {
    s != "" && s[|s| - 1] == '\n'
  }

  // ---- The journal as text ----

  /** A line of an existing journal that `validateExistingLog` lets pass. */
  predicate JournalLine(v: Json) {
    v.Object?
    && "schema" in v.fields && v.fields["schema"] == Number(1)
    && "phase" in v.fields && v.fields["phase"] == String("implementation")
    && "commandId" in v.fields && v.fields["commandId"].String?
    && "parent" in v.fields && v.fields["parent"].String?
    && "action" in v.fields && v.fields["action"] in {String("work"), String("review"), String("review_and_improve")}
  }

  predicate PassingLine(line: string, decode: Decoder) {
    decode(line).Some? && JournalLine(decode(line).value)
  }

  /** Empty, or newline-terminated lines that all satisfy ok. */
  ghost predicate LinesPass(log: string, ok: string -> bool) {
    log == "" || (EndsLine(log) && All(Split(log[..|log| - 1], '\n'), ok))
  }

  ghost predicate All(lines: seq<string>, ok: string -> bool) {
    forall i | 0 <= i < |lines| :: ok(lines[i])
  }

  ghost predicate AcceptsLog(log: string, decode: Decoder) {
    LinesPass(log, line => PassingLine(line, decode))
  }

  method ValidateExistingLog(log: string, decode: Decoder) returns (accepted: bool)
    ensures accepted <==> AcceptsLog(log, decode)
  {
    if log == "" { return true; }
    if !EndsLine(log) { return false; }
    var lines := Split(log[..|log| - 1], '\n');
    for i := 0 to |lines|
      invariant forall j | 0 <= j < i :: PassingLine(lines[j], decode)
    {
      var entry := decode(lines[i]);
      if entry.None? || !JournalLine(entry.value) {
        assert !PassingLine(lines[i], decode);
        return false;
      }
    }
    return true;
  }

  function Decodings(lines: seq<string>, decode: Decoder): (entries: seq<Option<Json>>)
    ensures |entries| == |lines| && forall i | 0 <= i < |lines| :: entries[i] == decode(lines[i])
  {
    seq(|lines|, i requires 0 <= i < |lines| => decode(lines[i]))
  }

  /** The entries of a line-terminated journal, in order. */
  function DecodedLog(log: string, decode: Decoder): seq<Option<Json>> {
    var lines := Split(log, '\n');
    Decodings(lines[..|lines| - 1], decode)
  }

  function WithLineFeed(s: string): string {
    s + "\n"
  }

  ghost predicate IgnoresLineFeed(decode: Decoder) {
    forall s {:trigger WithLineFeed(s)} :: decode(WithLineFeed(s)) == decode(s)
  }

  lemma LogOfLines(lines: seq<string>, decode: Decoder, ok: string -> bool)
    requires Plain(lines)
    ensures DecodedLog(Terminated(lines, '\n'), decode) == Decodings(lines, decode)
    ensures LinesPass(Terminated(lines, '\n'), ok) <==> All(lines, ok)
  {
    SplitOfTerminated(lines, '\n');
    assert (lines + [[]])[..|lines|] == lines;
    if lines != [] {
      TerminatedIsJoin(lines, '\n');
      var log := Terminated(lines, '\n');
      assert log[..|log| - 1] == Join(lines, '\n');
      SplitOfJoin(lines, '\n');
    }
  }

  /** Every text that ends in a line feed is a list of terminated lines. */
  lemma LinesOf(log: string) returns (lines: seq<string>)
    requires log == "" || EndsLine(log)
    ensures log == Terminated(lines, '\n') && Plain(lines)
  {
    if log == "" { return []; }
    lines := Split(log[..|log| - 1], '\n');
    SplitPartsArePlain(log[..|log| - 1], '\n');
    JoinOfSplit(log[..|log| - 1], '\n');
    TerminatedIsJoin(lines, '\n');
  }

  // ---- Accepting one publication ----

  datatype Run = Run(branch: Option<string>, logPath: Option<Path>, acceptedSha: Sha, handsOffCommits: bool)
  datatype Checkout = Checkout(branch: Option<string>, clean: bool, head: Sha)
  /** The readings of one acceptance: the checkout and the result file, each read again at the end. */
  datatype Observed = Observed(resultAssigned: bool, checkout: Checkout, raw: Option<string>, logPathSafe: bool,
                               checkoutAfter: Checkout, rawAfter: Option<string>)
  datatype Published = Published(sha: Sha, projectChanged: bool, entry: Json)
  datatype Refusal = NoResultPath | CheckoutChanged | NotPublished | NotJson | InvalidEntry | NotADirectCommit | EmptyCommit
                   | MissingMirror | UnsafeLogPath | Rewritten | NotOneLine | MirrorDiffers | ForbiddenChange | WrongOutcome | ResultChanged

  predicate DiffersAt(repo: map<Sha, Commit>, a: Sha, b: Sha, path: Path)
    requires a in repo && b in repo
  {
    var s, t := repo[a].tree, repo[b].tree;
    (path in s) != (path in t) || (path in s && s[path] != t[path])
  }

  /** The paths that `diff-tree --name-only` lists between two commits. */
  function Files(repo: map<Sha, Commit>, a: Sha, b: Sha): set<Path>
    requires a in repo && b in repo
  {
    set p | p in repo[a].tree.Keys + repo[b].tree.Keys && DiffersAt(repo, a, b, p)
  }

  function ProposalBase(run: Run, id: Identity): Sha {
    if id.turn == 1 && run.handsOffCommits then run.acceptedSha else id.parent
  }

  function CheckCommit(repo: map<Sha, Commit>, id: Identity, head: Sha): Option<Refusal>
    requires id.parent in repo && head in repo
  {
    if head == id.parent then None
    else if repo[head].parents != [id.parent] then Some(NotADirectCommit)
    else if Files(repo, id.parent, head) == {} then Some(EmptyCommit)
    else None
  }

  function CheckMirror(repo: map<Sha, Commit>, run: Run, id: Identity, head: Sha, safe: bool, entry: Json, decode: Decoder): Option<Refusal> {
    if run.logPath.None? then None
    else if head == id.parent then Some(MissingMirror)
    else if !safe then Some(UnsafeLogPath)
    else
      var before, after := LogAt(repo, id.parent, run.logPath.value), LogAt(repo, head, run.logPath.value);
      if (before != "" && !EndsLine(before)) || !(before <= after) then Some(Rewritten)
      else
        var appended := after[|before|..];
        if !EndsLine(appended) || '\n' in appended[..|appended| - 1] || Utf8Length(appended) > MAX_RESULT then Some(NotOneLine)
        else if decode(appended).None? then Some(NotJson)
        else if decode(appended).value != entry then Some(MirrorDiffers)
        else None
  }

  function Outcome(id: Identity, entry: Json, projectChanged: bool): Option<string> {
    if id.action == Work then None
    else if Objects(entry) then Some("strong_objection")
    else if projectChanged then Some("accept_and_improve") else Some("accept_without_improvement")
  }

  /** Acceptance of one turn's publication; `outcome` is the structured completion outcome, if one was reported, and an
      empty one reports nothing. */
  function ReadPublication(repo: map<Sha, Commit>, run: Run, id: Identity, seen: Observed, outcome: Option<string>, decode: Decoder)
    : Result<Published, Refusal>
    requires id.parent in repo && seen.checkout.head in repo && run.acceptedSha in repo
  {
    var head := seen.checkout.head;
    if !seen.resultAssigned then Err(NoResultPath)
    else if seen.checkout.branch != run.branch || !seen.checkout.clean then Err(CheckoutChanged)
    else if seen.raw.None? then Err(NotPublished)
    else if decode(seen.raw.value).None? then Err(NotJson)
    else
      var entry := decode(seen.raw.value).value;
      if !ValidEntry(entry, id) then Err(InvalidEntry)
      else if CheckCommit(repo, id, head).Some? then Err(CheckCommit(repo, id, head).value)
      else if CheckMirror(repo, run, id, head, seen.logPathSafe, entry, decode).Some? then
        Err(CheckMirror(repo, run, id, head, seen.logPathSafe, entry, decode).value)
      else
        var projectChanged := exists p <- Files(repo, ProposalBase(run, id), head) :: Some(p) != run.logPath;
        if projectChanged && (id.action == Review || Objects(entry)) then Err(ForbiddenChange)
        else if outcome.GetOr("") != "" && outcome != Outcome(id, entry, projectChanged) then Err(WrongOutcome)
        else if !seen.checkoutAfter.clean || seen.checkoutAfter.branch != run.branch || seen.checkoutAfter.head != head then Err(CheckoutChanged)
        else if seen.rawAfter != seen.raw then Err(ResultChanged)
        else Ok(Published(head, projectChanged, entry))
  }

  // ---- Runs of accepted turns ----

  datatype Turn = Turn(id: Identity, seen: Observed, outcome: Option<string>)

  ghost predicate Accepted(repo: Repo, run: Run, turn: Turn, decode: Decoder) {
    turn.id.parent in repo && turn.seen.checkout.head in repo && run.acceptedSha in repo
    && ReadPublication(repo, run, turn.id, turn.seen, turn.outcome, decode).Ok?
  }

  function HeadAfter(start: Sha, turns: seq<Turn>): Sha {
    if turns == [] then start else turns[|turns| - 1].seen.checkout.head
  }

  /** Each turn is accepted, and was assigned the previous result as its parent. */
  ghost predicate AcceptedRun(repo: Repo, run: Run, start: Sha, turns: seq<Turn>, decode: Decoder) {
    start in repo
    && (forall i | 0 <= i < |turns| :: Accepted(repo, run, turns[i], decode))
    && (forall i | 0 <= i < |turns| :: turns[i].id.parent == HeadAfter(start, turns[..i]))
  }

  function EntryOf(turn: Turn, decode: Decoder): Option<Json> {
    if turn.seen.raw.Some? then decode(turn.seen.raw.value) else None
  }

  lemma RunPrefix(repo: Repo, run: Run, start: Sha, turns: seq<Turn>, decode: Decoder)
    requires AcceptedRun(repo, run, start, turns, decode) && turns != []
    ensures AcceptedRun(repo, run, start, turns[..|turns| - 1], decode)
  {
    var before := turns[..|turns| - 1];
    forall i | 0 <= i < |before| ensures before[i].id.parent == HeadAfter(start, before[..i]) {
      assert before[..i] == turns[..i];
    }
  }

  lemma AcceptedHead(repo: Repo, run: Run, turn: Turn, decode: Decoder)
    requires Accepted(repo, run, turn, decode)
    ensures var head := turn.seen.checkout.head;
            && head in repo && (head == turn.id.parent || repo[head].parents == [turn.id.parent])
            && (run.logPath.Some? ==> head != turn.id.parent)
  {
  }

  /** Heads form a chain: each turn leaves HEAD where it was, or on one commit whose single parent it is. */
  lemma HeadsFormChain(repo: Repo, run: Run, start: Sha, turns: seq<Turn>, decode: Decoder, i: nat)
    requires AcceptedRun(repo, run, start, turns, decode) && i < |turns|
    ensures var before, head := HeadAfter(start, turns[..i]), HeadAfter(start, turns[..i + 1]);
            head in repo && (head == before || repo[head].parents == [before])
            && (run.logPath.Some? ==> head != before)
  {
    assert turns[..i + 1][i] == turns[i];
    AcceptedHead(repo, run, turns[i], decode);
  }

  lemma ValidEntryIsJournalLine(raw: Json, id: Identity)
    requires ValidEntry(raw, id)
    ensures JournalLine(raw)
  {
    JournalIdentity(id);
    IdentityKept(raw, id);
  }

  lemma JournalIdentity(id: Identity)
    ensures JournalLine(Object(IdentityFields(id)))
  {
  }

  lemma IdentityKept(raw: Json, id: Identity)
    requires ValidEntry(raw, id)
    ensures raw.Object? && forall k <- IdentityFields(id) :: k in raw.fields && raw.fields[k] == IdentityFields(id)[k]
  {
  }

  /** The line a turn added to the tracked log, without its line feed. */
  function LineOf(repo: map<Sha, Commit>, path: Path, turn: Turn): string {
    var before, after := LogAt(repo, turn.id.parent, path), LogAt(repo, turn.seen.checkout.head, path);
    if |before| < |after| then after[|before|..|after| - 1] else ""
  }

  /** What the mirror's checks found: the log grew by one line that decodes to the entry. */
  lemma MirrorChecked(repo: map<Sha, Commit>, run: Run, id: Identity, head: Sha, safe: bool, entry: Json, decode: Decoder)
    requires run.logPath.Some? && CheckMirror(repo, run, id, head, safe, entry, decode).None?
    ensures var before, after := LogAt(repo, id.parent, run.logPath.value), LogAt(repo, head, run.logPath.value);
            && before <= after && EndsLine(after[|before|..])
            && '\n' !in after[|before|..][..|after[|before|..]| - 1] && decode(after[|before|..]) == Some(entry)
  {
  }

  lemma LineFeedIgnored(decode: Decoder, line: string)
    requires IgnoresLineFeed(decode)
    ensures decode(line + "\n") == decode(line)
  {
    assert WithLineFeed(line) == line + "\n";
  }

  lemma MirrorAppendsLine(repo: map<Sha, Commit>, run: Run, turn: Turn, safe: bool, entry: Json, decode: Decoder)
    requires run.logPath.Some? && CheckMirror(repo, run, turn.id, turn.seen.checkout.head, safe, entry, decode).None?
    requires IgnoresLineFeed(decode)
    ensures var path := run.logPath.value;
            var line, before := LineOf(repo, path, turn), LogAt(repo, turn.id.parent, path);
            && '\n' !in line && decode(line) == Some(entry)
            && LogAt(repo, turn.seen.checkout.head, path) == before + line + "\n"
  {
    var path := run.logPath.value;
    MirrorChecked(repo, run, turn.id, turn.seen.checkout.head, safe, entry, decode);
    AppendedLine(LogAt(repo, turn.id.parent, path), LogAt(repo, turn.seen.checkout.head, path));
    LineFeedIgnored(decode, LineOf(repo, path, turn));
  }

  lemma AppendedLine(before: string, after: string)
    requires before <= after && EndsLine(after[|before|..])
    ensures var appended, line := after[|before|..], after[|before|..|after| - 1];
            |before| < |after| && appended[..|appended| - 1] == line && appended == line + "\n" && after == before + line + "\n"
  {
    var appended := after[|before|..];
    assert appended[..|appended| - 1] == after[|before|..|after| - 1];
    assert after == before + appended;
  }

  /** One accepted turn appends exactly one line, which decodes to its entry. */
  lemma TurnAppendsLine(repo: Repo, run: Run, turn: Turn, decode: Decoder)
    requires Accepted(repo, run, turn, decode) && run.logPath.Some? && IgnoresLineFeed(decode)
    ensures var path := run.logPath.value;
            var line, before := LineOf(repo, path, turn), LogAt(repo, turn.id.parent, path);
            && '\n' !in line && LogAt(repo, turn.seen.checkout.head, path) == before + line + "\n"
            && EntryOf(turn, decode).Some? && decode(line) == EntryOf(turn, decode)
  {
    MirrorAppendsLine(repo, run, turn, turn.seen.logPathSafe, EntryOf(turn, decode).value, decode);
  }

  lemma TurnLinePasses(repo: Repo, run: Run, turn: Turn, decode: Decoder)
    requires Accepted(repo, run, turn, decode) && run.logPath.Some? && IgnoresLineFeed(decode)
    ensures PassingLine(LineOf(repo, run.logPath.value, turn), decode)
  {
    TurnAppendsLine(repo, run, turn, decode);
    ValidEntryIsJournalLine(EntryOf(turn, decode).value, turn.id);
  }

  /** Texts that grow by one terminated line at a time. */
  lemma {:induction false} LogsAccumulate(logs: seq<string>, lines: seq<string>)
    requires |logs| == |lines| + 1
    requires forall i | 0 <= i < |lines| :: logs[i + 1] == logs[i] + lines[i] + "\n"
    ensures logs[|lines|] == logs[0] + Terminated(lines, '\n')
  {
    if lines != [] {
      var n := |lines| - 1;
      LogsAccumulate(logs[..n + 1], lines[..n]);
      TerminatedConcat(lines[..n], [lines[n]], '\n');
      assert lines[..n] + [lines[n]] == lines;
      assert Terminated([lines[n]], '\n') == lines[n] + "\n";
    }
  }

  function Lines(repo: map<Sha, Commit>, path: Path, turns: seq<Turn>): (lines: seq<string>)
    ensures |lines| == |turns| && forall i | 0 <= i < |turns| :: lines[i] == LineOf(repo, path, turns[i])
  {
    seq(|turns|, i requires 0 <= i < |turns| => LineOf(repo, path, turns[i]))
  }

  function Entries(turns: seq<Turn>, decode: Decoder): (entries: seq<Option<Json>>)
    ensures |entries| == |turns| && forall i | 0 <= i < |turns| :: entries[i] == EntryOf(turns[i], decode)
  {
    seq(|turns|, i requires 0 <= i < |turns| => EntryOf(turns[i], decode))
  }

  /** The tracked log after a run is the initial log plus one line a turn, decoding in order to the turns' entries. */
  lemma JournalMirrorsRun(repo: Repo, run: Run, start: Sha, turns: seq<Turn>, decode: Decoder)
    requires AcceptedRun(repo, run, start, turns, decode) && run.logPath.Some? && IgnoresLineFeed(decode)
    ensures var path := run.logPath.value;
            var lines := Lines(repo, path, turns);
            && LogAt(repo, HeadAfter(start, turns), path) == LogAt(repo, start, path) + Terminated(lines, '\n')
            && Decodings(lines, decode) == Entries(turns, decode)
            && Plain(lines)
  {
    var path := run.logPath.value;
    var lines := Lines(repo, path, turns);
    var logs := seq(|turns| + 1, i requires 0 <= i <= |turns| => LogAt(repo, HeadAfter(start, turns[..i]), path));
    forall i | 0 <= i < |turns|
      ensures logs[i + 1] == logs[i] + lines[i] + "\n" && '\n' !in lines[i]
      ensures decode(lines[i]) == EntryOf(turns[i], decode)
    {
      TurnAppendsLine(repo, run, turns[i], decode);
      assert turns[..i + 1][i] == turns[i];
    }
    LogsAccumulate(logs, lines);
    assert turns[..|turns|] == turns && turns[..0] == [];
  }

  ghost predicate Plain(lines: seq<string>) {
    forall i | 0 <= i < |lines| :: '\n' !in lines[i]
  }

  lemma JoinedLines(first: seq<string>, added: seq<string>, decode: Decoder, ok: string -> bool)
    requires Plain(first) && Plain(added)
    ensures Plain(first + added)
    ensures All(first + added, ok) <==> All(first, ok) && All(added, ok)
    ensures Decodings(first + added, decode) == Decodings(first, decode) + Decodings(added, decode)
  {
    var lines := first + added;
    assert forall i | 0 <= i < |first| :: lines[i] == first[i];
    assert forall i | 0 <= i < |added| :: lines[|first| + i] == added[i];
  }

  lemma LogGrowsByLines(log: string, added: seq<string>, decode: Decoder, ok: string -> bool)
    requires LinesPass(log, ok) && Plain(added) && All(added, ok)
    ensures LinesPass(log + Terminated(added, '\n'), ok)
    ensures DecodedLog(log + Terminated(added, '\n'), decode) == DecodedLog(log, decode) + Decodings(added, decode)
  {
    var first := LinesOf(log);
    LogOfLines(first, decode, ok);
    JoinedLines(first, added, decode, ok);
    LogOfLines(first + added, decode, ok);
    TerminatedConcat(first, added, '\n');
  }

  /** After any run, an initially acceptable journal is still acceptable, and reads as the initial entries followed by
      exactly the entries of the turns. */
  lemma JournalStaysReadable(repo: Repo, run: Run, start: Sha, turns: seq<Turn>, decode: Decoder)
    requires AcceptedRun(repo, run, start, turns, decode) && run.logPath.Some? && IgnoresLineFeed(decode)
    requires AcceptsLog(LogAt(repo, start, run.logPath.value), decode)
    ensures var before, after := LogAt(repo, start, run.logPath.value), LogAt(repo, HeadAfter(start, turns), run.logPath.value);
            AcceptsLog(after, decode) && DecodedLog(after, decode) == DecodedLog(before, decode) + Entries(turns, decode)
  {
    JournalMirrorsRun(repo, run, start, turns, decode);
    forall i | 0 <= i < |turns| ensures PassingLine(Lines(repo, run.logPath.value, turns)[i], decode) {
      TurnLinePasses(repo, run, turns[i], decode);
    }
    LogGrowsByLines(LogAt(repo, start, run.logPath.value), Lines(repo, run.logPath.value, turns), decode, line => PassingLine(line, decode));
  }

  /** The turn was not allowed to change project files. */
  predicate OnlyReviews(run: Run, turn: Turn, decode: Decoder) {
    ProposalBase(run, turn.id) == turn.id.parent
    && (turn.id.action == Review || (EntryOf(turn, decode).Some? && Objects(EntryOf(turn, decode).value)))
  }

  lemma ReviewKeepsProject(repo: Repo, run: Run, turn: Turn, decode: Decoder, path: Path)
    requires Accepted(repo, run, turn, decode) && OnlyReviews(run, turn, decode) && Some(path) != run.logPath
    ensures turn.id.parent in repo && turn.seen.checkout.head in repo
    ensures !DiffersAt(repo, turn.id.parent, turn.seen.checkout.head, path)
  {
    assert path !in Files(repo, turn.id.parent, turn.seen.checkout.head);
  }

  /** Turns that may only review leave every project file as it was: only the journal itself may differ. */
  lemma {:induction false} ReviewsKeepProject(repo: Repo, run: Run, start: Sha, turns: seq<Turn>, decode: Decoder, path: Path)
    requires AcceptedRun(repo, run, start, turns, decode) && Some(path) != run.logPath
    requires forall i | 0 <= i < |turns| :: OnlyReviews(run, turns[i], decode)
    ensures HeadAfter(start, turns) in repo && !DiffersAt(repo, start, HeadAfter(start, turns), path)
    decreases |turns|
  {
    if turns != [] {
      var n := |turns| - 1;
      RunPrefix(repo, run, start, turns, decode);
      ReviewsKeepProject(repo, run, start, turns[..n], decode, path);
      ReviewKeepsProject(repo, run, turns[n], decode, path);
      SameThrough(repo, start, HeadAfter(start, turns[..n]), HeadAfter(start, turns), path);
    }
  }

  lemma SameThrough(repo: map<Sha, Commit>, a: Sha, b: Sha, c: Sha, path: Path)
    requires a in repo && b in repo && c in repo && !DiffersAt(repo, a, b, path) && !DiffersAt(repo, b, c, path)
    ensures !DiffersAt(repo, a, c, path)
  {
  }
}
