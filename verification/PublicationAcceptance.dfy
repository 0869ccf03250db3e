/** When a publication is accepted, told by the commit graph, the log's texts, the entry's fields and the reported outcome. */
module PublicationAcceptance {
  import opened Options
  import opened Characters
  import opened Text
  import opened CommitGraph
  import opened Publication

  function Decision(entry: Json): Json {
    if entry.Object? && "decision" in entry.fields then entry.fields["decision"] else Null
  }

  /** HEAD is the assigned parent, or one commit on it, its only parent, that changes some file. */
  ghost predicate AtMostOneCommit(repo: map<Sha, Commit>, id: Identity, head: Sha)
    requires id.parent in repo && head in repo
  {
    head == id.parent || (repo[head].parents == [id.parent] && exists p :: DiffersAt(repo, id.parent, head, p))
  }

  /** The log grew by one line, at most 64 KiB long, that decodes to the entry. */
  ghost predicate GrewByEntry(before: string, after: string, entry: Json, decode: Decoder) {
    && (before == "" || before[|before| - 1] == '\n')
    && exists line :: after == before + line + "\n" && '\n' !in line && Utf8Length(line + "\n") <= 65536
                      && decode(line + "\n") == Some(entry)
  }

  ghost predicate Mirrored(repo: map<Sha, Commit>, run: Run, id: Identity, head: Sha, safe: bool, entry: Json, decode: Decoder) {
    run.logPath.None?
    || (head != id.parent && safe
        && GrewByEntry(LogAt(repo, id.parent, run.logPath.value), LogAt(repo, head, run.logPath.value), entry, decode))
  }

  /** Some file but the log differs between what the turn proposes to change and HEAD: the whole accepted range for the
      first turn of a commit handoff, the assigned parent otherwise. */
  ghost predicate ChangesProject(repo: map<Sha, Commit>, run: Run, id: Identity, head: Sha)
    requires id.parent in repo && head in repo && run.acceptedSha in repo
  {
    exists p :: DiffersAt(repo, if id.turn == 1 && run.handsOffCommits then run.acceptedSha else id.parent, head, p)
                && Some(p) != run.logPath
  }

  /** A reported outcome is that of a review whose decision and changes it names; work reports none. */
  predicate OutcomeAgrees(id: Identity, entry: Json, changed: bool, outcome: Option<string>) {
    || outcome == None
    || outcome == Some("")
    || (outcome == Some("strong_objection") && id.action != Work && Decision(entry) == String("object"))
    || (outcome == Some("accept_and_improve") && id.action != Work && Decision(entry) == String("accept") && changed)
    || (outcome == Some("accept_without_improvement") && id.action != Work && Decision(entry) == String("accept") && !changed)
  }

  ghost predicate Acceptable(repo: map<Sha, Commit>, run: Run, id: Identity, seen: Observed, outcome: Option<string>, decode: Decoder, entry: Json)
    requires id.parent in repo && seen.checkout.head in repo && run.acceptedSha in repo
  {
    var head := seen.checkout.head;
    && seen.resultAssigned && seen.checkout == Checkout(run.branch, true, head)
    && seen.raw.Some? && decode(seen.raw.value) == Some(entry) && ValidEntry(entry, id)
    && AtMostOneCommit(repo, id, head) && Mirrored(repo, run, id, head, seen.logPathSafe, entry, decode)
    && (ChangesProject(repo, run, id, head) ==> id.action != Review && Decision(entry) != String("object"))
    && OutcomeAgrees(id, entry, ChangesProject(repo, run, id, head), outcome)
    && seen.checkoutAfter == seen.checkout && seen.rawAfter == seen.raw
  }

  lemma CommitChecked(repo: map<Sha, Commit>, id: Identity, head: Sha)
    requires id.parent in repo && head in repo
    ensures CheckCommit(repo, id, head).None? <==> AtMostOneCommit(repo, id, head)
  {
    FilesAreDifferences(repo, id.parent, head);
  }

  lemma FilesAreDifferences(repo: map<Sha, Commit>, a: Sha, b: Sha)
    requires a in repo && b in repo
    ensures forall p :: p in Files(repo, a, b) <==> DiffersAt(repo, a, b, p)
  {
  }

  lemma LineAppended(before: string, line: string)
    ensures var after := before + line + "\n";
            && before <= after && after[|before|..] == line + "\n" && EndsLine(line + "\n")
            && (line + "\n")[..|line + "\n"| - 1] == line
  {
  }

  lemma GrowthChecked(before: string, after: string, entry: Json, decode: Decoder)
    ensures GrewByEntry(before, after, entry, decode) <==>
              && (before == "" || EndsLine(before)) && before <= after
              && var appended := after[|before|..];
                 EndsLine(appended) && '\n' !in appended[..|appended| - 1] && Utf8Length(appended) <= MAX_RESULT && decode(appended) == Some(entry)
  {
    forall line | after == before + line + "\n"
      ensures before <= after && after[|before|..] == line + "\n" && EndsLine(line + "\n") && (line + "\n")[..|line + "\n"| - 1] == line
    {
      LineAppended(before, line);
    }
    if before <= after && EndsLine(after[|before|..]) {
      AppendedLine(before, after);
    }
  }

  lemma MirrorChecks(repo: map<Sha, Commit>, run: Run, id: Identity, head: Sha, safe: bool, entry: Json, decode: Decoder)
    ensures CheckMirror(repo, run, id, head, safe, entry, decode).None? <==> Mirrored(repo, run, id, head, safe, entry, decode)
  {
    if run.logPath.Some? {
      GrowthChecked(LogAt(repo, id.parent, run.logPath.value), LogAt(repo, head, run.logPath.value), entry, decode);
    }
  }

  lemma ReviewDecides(entry: Json, id: Identity)
    requires ValidEntry(entry, id)
    ensures Objects(entry) <==> Decision(entry) == String("object")
    ensures if id.action == Work then Decision(entry) == Null else Decision(entry) == String("accept") || Decision(entry) == String("object")
  {
  }

  lemma OutcomeChecked(id: Identity, entry: Json, changed: bool, outcome: Option<string>)
    requires ValidEntry(entry, id)
    ensures !(outcome.GetOr("") != "" && outcome != Outcome(id, entry, changed)) <==> OutcomeAgrees(id, entry, changed, outcome)
  {
    ReviewDecides(entry, id);
  }

  lemma ChangeChecked(repo: map<Sha, Commit>, run: Run, id: Identity, head: Sha)
    requires id.parent in repo && head in repo && run.acceptedSha in repo
    ensures (exists p <- Files(repo, ProposalBase(run, id), head) :: Some(p) != run.logPath) <==> ChangesProject(repo, run, id, head)
  {
    FilesAreDifferences(repo, ProposalBase(run, id), head);
  }

  /** A publication is accepted if and only if it is acceptable, and the result names its HEAD, its entry, and whether it
      changed the project. */
  lemma AcceptedExactly(repo: map<Sha, Commit>, run: Run, id: Identity, seen: Observed, outcome: Option<string>, decode: Decoder)
    requires id.parent in repo && seen.checkout.head in repo && run.acceptedSha in repo
    ensures var r := ReadPublication(repo, run, id, seen, outcome, decode);
            && (r.Ok? <==> exists entry :: Acceptable(repo, run, id, seen, outcome, decode, entry))
            && (r.Ok? ==> Acceptable(repo, run, id, seen, outcome, decode, r.value.entry)
                          && r.value.sha == seen.checkout.head
                          && (r.value.projectChanged <==> ChangesProject(repo, run, id, seen.checkout.head)))
  {
    var r := ReadPublication(repo, run, id, seen, outcome, decode);
    if seen.raw.Some? && decode(seen.raw.value).Some? {
      var entry := decode(seen.raw.value).value;
      AcceptedEntry(repo, run, id, seen, outcome, decode, entry);
    }
  }

  lemma AcceptedEntry(repo: map<Sha, Commit>, run: Run, id: Identity, seen: Observed, outcome: Option<string>, decode: Decoder, entry: Json)
    requires id.parent in repo && seen.checkout.head in repo && run.acceptedSha in repo
    requires seen.raw.Some? && decode(seen.raw.value) == Some(entry)
    ensures var r := ReadPublication(repo, run, id, seen, outcome, decode);
            && (r.Ok? <==> Acceptable(repo, run, id, seen, outcome, decode, entry))
            && (r.Ok? ==> r.value == Published(seen.checkout.head, ChangesProject(repo, run, id, seen.checkout.head), entry))
  {
    var head := seen.checkout.head;
    if ValidEntry(entry, id) {
      CommitChecked(repo, id, head);
      MirrorChecks(repo, run, id, head, seen.logPathSafe, entry, decode);
      ChangeChecked(repo, run, id, head);
      OutcomeChecked(id, entry, ChangesProject(repo, run, id, head), outcome);
      ReviewDecides(entry, id);
    }
  }

  /** What a publication may report: of one accepted without an outcome, a reported one is accepted if and only if it
      names what the review decided and did, and none is for work. */
  lemma ReportedOutcome(repo: map<Sha, Commit>, run: Run, id: Identity, seen: Observed, outcome: string, decode: Decoder)
    requires id.parent in repo && seen.checkout.head in repo && run.acceptedSha in repo && outcome != ""
    requires ReadPublication(repo, run, id, seen, None, decode).Ok?
    ensures var p := ReadPublication(repo, run, id, seen, None, decode).value;
            ReadPublication(repo, run, id, seen, Some(outcome), decode).Ok? <==>
              id.action != Work
              && outcome == if Decision(p.entry) == String("object") then "strong_objection"
                            else if ChangesProject(repo, run, id, seen.checkout.head) then "accept_and_improve"
                            else "accept_without_improvement"
  {
    var entry := decode(seen.raw.value).value;
    AcceptedEntry(repo, run, id, seen, None, decode, entry);
    AcceptedEntry(repo, run, id, seen, Some(outcome), decode, entry);
    ReviewDecides(entry, id);
  }

  // ---- What a valid entry is ----

  /** What an agent reports: of work nothing is decided; a review accepts or objects. */
  datatype Report = Report(model: string, accepts: Option<bool>, reason: Option<string>, needsHuman: bool, summary: string,
                           checks: seq<string>)

  predicate Told(s: string, limit: nat) {
    !Blank(s) && Units(s) <= limit
  }

  /** Texts within their limits; an acceptance needs no human, an objection gives its reason, and work decides nothing. */
  predicate ReportOk(r: Report, action: Action) {
    && Told(r.model, 200) && Told(r.summary, 16000)
    && |r.checks| <= 100 && (forall i | 0 <= i < |r.checks| :: Units(r.checks[i]) <= 2000)
    && (r.reason.Some? ==> Units(r.reason.value) <= 16000)
    && (r.accepts == Some(true) ==> !r.needsHuman)
    && (r.accepts == Some(false) ==> r.reason.Some? && !Blank(r.reason.value))
    && (if action == Work then r.accepts.None? && r.reason.None? else r.accepts.Some?)
  }

  function DecisionText(accepts: Option<bool>): Json {
    match accepts
    case None => Null
    case Some(yes) => String(if yes then "accept" else "object")
  }

  function Texts(checks: seq<string>): (items: seq<Json>)
    ensures |items| == |checks| && forall i | 0 <= i < |checks| :: items[i] == String(checks[i])
  {
    seq(|checks|, i requires 0 <= i < |checks| => String(checks[i]))
  }

  function ReportFields(r: Report): map<string, Json> {
    map["model" := String(r.model), "decision" := DecisionText(r.accepts), "reason" := Nullable(r.reason),
        "needsHuman" := Bool(r.needsHuman), "summary" := String(r.summary), "checks" := Array(Texts(r.checks))]
  }

  function EntryOf(id: Identity, r: Report): Json {
    Object(IdentityFields(id) + ReportFields(r))
  }

  lemma KeysApart(id: Identity)
    ensures IdentityFields(id).Keys !! RESULT_FIELDS
  {
  }

  lemma ReportKeys(r: Report)
    ensures ReportFields(r).Keys == RESULT_FIELDS
  {
  }

  lemma Merged<K, V>(a: map<K, V>, b: map<K, V>)
    requires a.Keys !! b.Keys
    ensures (a + b).Keys == a.Keys + b.Keys
    ensures (forall k <- a :: (a + b)[k] == a[k]) && forall k <- b :: (a + b)[k] == b[k]
  {
  }

  /** The fields of a report as they are read back. */
  predicate Carries(f: map<string, Json>, r: Report) {
    && RESULT_FIELDS <= f.Keys
    && f["model"] == String(r.model) && f["decision"] == DecisionText(r.accepts) && f["reason"] == Nullable(r.reason)
    && f["needsHuman"] == Bool(r.needsHuman) && f["summary"] == String(r.summary) && f["checks"] == Array(Texts(r.checks))
  }

  lemma ReportIsCarried(r: Report, f: map<string, Json>)
    requires RESULT_FIELDS <= f.Keys
    ensures Carries(f, r) <==> forall k <- RESULT_FIELDS :: k in ReportFields(r) && f[k] == ReportFields(r)[k]
  {
    ReportKeys(r);
    var g := ReportFields(r);
    assert g["model"] == String(r.model) && g["decision"] == DecisionText(r.accepts) && g["reason"] == Nullable(r.reason);
    assert g["needsHuman"] == Bool(r.needsHuman) && g["summary"] == String(r.summary) && g["checks"] == Array(Texts(r.checks));
    if forall k <- RESULT_FIELDS :: k in g && f[k] == g[k] {
      assert f["model"] == g["model"] && f["decision"] == g["decision"] && f["reason"] == g["reason"];
      assert f["needsHuman"] == g["needsHuman"] && f["summary"] == g["summary"] && f["checks"] == g["checks"];
    }
  }

  lemma CarriedIsEntry(raw: Json, id: Identity, r: Report)
    requires raw.Object? && raw.fields.Keys == IdentityFields(id).Keys + RESULT_FIELDS
    ensures raw == EntryOf(id, r) <==>
            (forall k <- IdentityFields(id) :: raw.fields[k] == IdentityFields(id)[k]) && Carries(raw.fields, r)
  {
    KeysApart(id);
    ReportKeys(r);
    Merged(IdentityFields(id), ReportFields(r));
    ReportIsCarried(r, raw.fields);
    if (forall k <- IdentityFields(id) :: raw.fields[k] == IdentityFields(id)[k]) && Carries(raw.fields, r) {
      assert raw.fields == EntryOf(id, r).fields;
    }
  }

  lemma EntryKeys(id: Identity, r: Report)
    ensures EntryOf(id, r).fields.Keys == IdentityFields(id).Keys + RESULT_FIELDS
  {
    KeysApart(id);
    ReportKeys(r);
    Merged(IdentityFields(id), ReportFields(r));
  }

  lemma CarriedIsValid(raw: Json, id: Identity, r: Report)
    requires raw.Object? && raw.fields.Keys == IdentityFields(id).Keys + RESULT_FIELDS && Carries(raw.fields, r)
    requires forall k <- IdentityFields(id) :: raw.fields[k] == IdentityFields(id)[k]
    ensures ReportOk(r, id.action) ==> ValidEntry(raw, id)
  {
  }

  lemma ValidIsOk(raw: Json, id: Identity, r: Report)
    requires ValidEntry(raw, id) && Carries(raw.fields, r)
    ensures ReportOk(r, id.action)
  {
  }

  /** The report that a valid entry carries. */
  function ReportIn(f: map<string, Json>): Report
    requires RESULT_FIELDS <= f.Keys && f["model"].String? && f["summary"].String? && f["needsHuman"].Bool? && f["checks"].Array?
    requires forall i | 0 <= i < |f["checks"].items| :: f["checks"].items[i].String?
  {
    var items := f["checks"].items;
    Report(f["model"].text, if f["decision"] == Null then None else Some(f["decision"] == String("accept")),
           if f["reason"].String? then Some(f["reason"].text) else None, f["needsHuman"].value, f["summary"].text,
           seq(|items|, i requires 0 <= i < |items| => items[i].text))
  }

  lemma ValidCarries(raw: Json, id: Identity)
    requires ValidEntry(raw, id)
    ensures Carries(raw.fields, ReportIn(raw.fields))
  {
    assert Texts(ReportIn(raw.fields).checks) == raw.fields["checks"].items;
  }

  /** An entry is valid if and only if it is the assigned identity together with an acceptable report, and nothing else. */
  lemma ValidExactly(raw: Json, id: Identity)
    ensures ValidEntry(raw, id) <==> exists r :: ReportOk(r, id.action) && raw == EntryOf(id, r)
  {
    if ValidEntry(raw, id) {
      var r := ReportIn(raw.fields);
      ValidCarries(raw, id);
      CarriedIsEntry(raw, id, r);
      ValidIsOk(raw, id, r);
    }
    forall r | ReportOk(r, id.action) && raw == EntryOf(id, r)
      ensures ValidEntry(raw, id)
    {
      EntryKeys(id, r);
      CarriedIsEntry(raw, id, r);
      CarriedIsValid(raw, id, r);
    }
  }

  // ---- What an existing journal is ----

  /** A schema-1 implementation entry, as far as an existing journal is checked. */
  predicate JournalEntry(f: map<string, Json>) {
    && {"schema", "phase", "commandId", "parent", "action"} <= f.Keys
    && f["schema"] == Number(1) && f["phase"] == String("implementation")
    && f["commandId"].String? && f["parent"].String?
    && f["action"].String? && f["action"].text in ["work", "review", "review_and_improve"]
  }

  lemma EnteredPasses(line: string, decode: Decoder)
    ensures Entered(line, decode) <==> PassingLine(line, decode)
  {
  }

  /** A log is an acceptable journal exactly if it is empty or consists of lines, each ended by a line feed, that decode to
      such entries. */
  lemma JournalsAcceptedExactly(log: string, decode: Decoder)
    ensures AcceptsLog(log, decode) <==>
            exists lines :: Plain(lines) && log == Terminated(lines, '\n')
                            && forall i | 0 <= i < |lines| :: Entered(lines[i], decode)
  {
    if AcceptsLog(log, decode) {
      var lines := LinesOf(log);
      LogOfLines(lines, decode, line => PassingLine(line, decode));
      forall i | 0 <= i < |lines|
        ensures Entered(lines[i], decode)
      {
        EnteredPasses(lines[i], decode);
      }
    }
    forall lines | Plain(lines) && log == Terminated(lines, '\n') && forall i | 0 <= i < |lines| :: Entered(lines[i], decode)
      ensures AcceptsLog(log, decode)
    {
      LogOfLines(lines, decode, line => PassingLine(line, decode));
      forall i | 0 <= i < |lines|
        ensures PassingLine(lines[i], decode)
      {
        EnteredPasses(lines[i], decode);
      }
    }
  }

  predicate Entered(line: string, decode: Decoder) {
    match decode(line)
    case Some(Object(fields)) => JournalEntry(fields)
    case _ => false
  }
}
