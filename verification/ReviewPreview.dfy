/** The committed-range preview: which commit a review starts from, and what the range holds. Git's answers are values
    given with their meaning over the commit graph; HEAD is read once before and once after the others. */
module ReviewPreview {
  import opened Options
  import opened Text
  import opened CommitGraph

  const PREVIEW_CAP := 100

  datatype Input = Input(head: Sha, base: Option<Sha>, taskBase: Option<Sha>, logPath: Option<Path>, commitPending: bool)
  datatype Entry = Entry(sha: Sha, subject: string)
  datatype Since = Explicit | Recipient | Task
  datatype Preview = Preview(base: Sha, since: Since, commits: seq<Entry>, candidates: seq<Entry>)
  datatype Refusal = HeadChanged | NotAnAncestor | NoProposal | TooManyCommits | GitFailure

  /** What Git prints: the raw log texts keep their NUL-terminated form. */
  datatype Readings = Readings(headBefore: Sha, headAfter: Sha, taskBaseIsAncestor: bool, taskChain: seq<Sha>,
                               mergeBase: Sha -> Option<Sha>, changedPaths: Sha -> seq<Path>,
                               log: Sha -> string, firstParentLog: Sha -> string, subject: Sha -> string)

  // ---- What the readings mean ----

  /** Commits reachable from head and not from base. */
  ghost function Range(repo: Repo, base: Sha, head: Sha): set<Sha>
    requires base in repo && head in repo
  {
    set c | c in repo && Ancestor(repo, c, head) && !Ancestor(repo, c, base)
  }

  /** The first-parent walk from c, newest first, up to what base contains. */
  ghost function FirstParents(repo: Repo, base: Sha, c: Sha): (chain: seq<Sha>)
    requires base in repo && c in repo
    ensures forall i | 0 <= i < |chain| :: chain[i] in repo
    decreases repo[c].generation
  {
    if Ancestor(repo, c, base) then []
    else [c] + (if repo[c].parents == [] then [] else FirstParents(repo, base, repo[c].parents[0]))
  }

  ghost predicate Changed(repo: Repo, base: Sha, head: Sha, path: Path)
    requires base in repo && head in repo
  {
    var a, b := repo[base].tree, repo[head].tree;
    (path in a) != (path in b) || (path in a && a[path] != b[path])
  }

  function EntryOf(repo: map<Sha, Commit>, sha: Sha): Entry {
    Entry(sha, if sha in repo then repo[sha].subject else "")
  }

  function Entries(repo: map<Sha, Commit>, shas: seq<Sha>): (entries: seq<Entry>)
    ensures |entries| == |shas| && forall i | 0 <= i < |shas| :: entries[i] == EntryOf(repo, shas[i])
  {
    seq(|shas|, i requires 0 <= i < |shas| => EntryOf(repo, shas[i]))
  }

  function Fields(entries: seq<Entry>): (fields: seq<string>)
    ensures |fields| == 2 * |entries|
    ensures forall i | 0 <= i < |entries| :: fields[2 * i] == entries[i].sha && fields[2 * i + 1] == entries[i].subject
  {
    if entries == [] then [] else
      var rest := Fields(entries[1..]);
      assert forall i | 0 < i < |entries| :: entries[i] == entries[1..][i - 1];
      [entries[0].sha, entries[0].subject] + rest
  }

  function LogText(entries: seq<Entry>): string {
    Terminated(Fields(entries), '\0')
  }

  ghost predicate Printable(repo: Repo) {
    forall c <- repo :: '\0' !in c && '\0' !in repo[c].subject
  }

  /** A listing of a range in some order, HEAD first when it belongs. */
  ghost predicate Lists(order: seq<Sha>, range: set<Sha>, head: Sha) {
    Distinct(order) && (forall i | 0 <= i < |order| :: order[i] in range) && (forall c <- range :: c in order)
    && (head in range ==> order != [] && order[0] == head)
  }

  ghost predicate Faithful(git: Readings, repo: Repo, input: Input, order: Sha -> seq<Sha>) {
    && input.head in repo && Printable(repo)
    && (input.base.None? ==> input.taskBase.Some?)
    && (input.taskBase.Some? ==> var t := input.taskBase.value;
        && (git.taskBaseIsAncestor <==> t in repo && Ancestor(repo, t, input.head))
        && (t in repo ==> git.taskChain == Take(FirstParents(repo, t, input.head), PREVIEW_CAP + 1)))
    && (forall b :: ReadsBase(git, repo, input.head, order, b))
  }

  ghost predicate ReportsChanges(paths: seq<Path>, repo: Repo, base: Sha, head: Sha)
    requires base in repo && head in repo
  {
    forall p :: p in paths <==> Changed(repo, base, head, p)
  }

  ghost predicate ReadsBase(git: Readings, repo: Repo, head: Sha, order: Sha -> seq<Sha>, b: Sha)
    requires head in repo
  {
    if b !in repo then git.mergeBase(b) == None else
      && (match git.mergeBase(b)
          case None => MergeBases(repo, b, head) == {}
          case Some(m) => m in MergeBases(repo, b, head))
      && ReportsChanges(git.changedPaths(b), repo, b, head)
      && Lists(order(b), Range(repo, b, head), head)
      && git.log(b) == LogText(Entries(repo, Take(order(b), PREVIEW_CAP + 1)))
      && git.firstParentLog(b) == LogText(Entries(repo, Take(FirstParents(repo, b, head), PREVIEW_CAP + 1)))
      && git.subject(b) == repo[b].subject
  }

  // ---- What the preview should be ----

  function NewestIn(chain: seq<Sha>, receipts: set<Sha>): (r: Option<Sha>)
    ensures match r
            case None => forall i | 0 <= i < |chain| :: chain[i] !in receipts
            case Some(c) => c in receipts && exists k | 0 <= k < |chain| ::
                              chain[k] == c && forall i | 0 <= i < k :: chain[i] !in receipts
  {
    if chain == [] then None else if chain[0] in receipts then Some(chain[0]) else
      var r := NewestIn(chain[1..], receipts);
      assert r.Some? ==> exists k | 1 <= k < |chain| :: chain[k] == r.value && forall i | 0 <= i < k :: chain[i] !in receipts by {
        if r.Some? {
          var k :| 0 <= k < |chain[1..]| && chain[1..][k] == r.value && forall i | 0 <= i < k :: chain[1..][i] !in receipts;
          assert chain[k + 1] == r.value && forall i | 0 <= i < k + 1 :: chain[i] !in receipts;
        }
      }
      r
  }

  /** The baseline the source promises: the explicit one, else the newest commit on the whole first-parent chain back to
      the task baseline, that baseline included, at which the recipient completed a turn, else the task baseline. */
  ghost function ExpectedBase(repo: Repo, input: Input, receipts: set<Sha>): Sha
    requires input.head in repo && (input.base.None? ==> input.taskBase.Some? && input.taskBase.value in repo)
  {
    if input.base.Some? then input.base.value else
      var t := input.taskBase.value;
      NewestIn(FirstParents(repo, t, input.head) + [t], receipts).GetOr(t)
  }

  /** A range that can be reviewed from base: an ancestor, with a proposal, within the cap. */
  ghost predicate Reviewable(repo: Repo, input: Input, base: Sha)
    requires input.head in repo
  {
    && base in repo && Ancestor(repo, base, input.head)
    && (input.commitPending || exists p :: Changed(repo, base, input.head, p) && Some(p) != input.logPath)
    && |Range(repo, base, input.head)| <= 100
  }

  /** Why the preview starts where it does: the human chose, the recipient published somewhere on the whole first-parent
      chain or at the task baseline, or neither. */
  ghost function ExpectedSince(repo: Repo, input: Input, receipts: set<Sha>): Since
    requires input.head in repo && (input.base.None? ==> input.taskBase.Some? && input.taskBase.value in repo)
  {
    if input.base.Some? then Explicit
    else if input.taskBase.value in receipts || exists c <- receipts :: c in FirstParents(repo, input.taskBase.value, input.head)
    then Recipient else Task
  }

  /** The first-parent walk, told by its steps: it starts at the commit, goes from each to its first parent, and ends before
      what the base contains or at a commit without parents. */
  lemma {:induction false} FirstParentsWalk(repo: Repo, base: Sha, c: Sha)
    requires base in repo && c in repo
    ensures var chain := FirstParents(repo, base, c);
            && (chain == [] <==> Ancestor(repo, c, base)) && (chain != [] ==> chain[0] == c)
            && (forall i | 0 <= i < |chain| :: !Ancestor(repo, chain[i], base))
            && (forall i | 0 < i < |chain| :: StepsToParent(repo, chain, i))
            && (chain != [] ==> var last := repo[chain[|chain| - 1]]; last.parents == [] || Ancestor(repo, last.parents[0], base))
    decreases repo[c].generation
  {
    if !Ancestor(repo, c, base) && repo[c].parents != [] {
      FirstParentsWalk(repo, base, repo[c].parents[0]);
      var tail := FirstParents(repo, base, repo[c].parents[0]);
      var chain := FirstParents(repo, base, c);
      assert chain == [c] + tail;
      forall i | 0 < i < |chain|
        ensures StepsToParent(repo, chain, i)
      {
        assert i > 1 ==> StepsToParent(repo, tail, i - 1);
      }
      if tail != [] {
        assert chain[|chain| - 1] == tail[|tail| - 1];
      }
    }
  }

  predicate StepsToParent(repo: map<Sha, Commit>, chain: seq<Sha>, i: nat)
    requires 0 < i < |chain|
  {
    chain[i - 1] in repo && repo[chain[i - 1]].parents != [] && chain[i] == repo[chain[i - 1]].parents[0]
  }

  // ---- The cap on the first-parent chain is harmless ----

  ghost predicate Descending(repo: Repo, chain: seq<Sha>) {
    (forall i | 0 <= i < |chain| :: chain[i] in repo)
    && forall i, j | 0 <= i < j < |chain| :: Ancestor(repo, chain[j], chain[i]) && chain[i] != chain[j]
  }

  lemma {:induction false} ChainDescends(repo: Repo, base: Sha, c: Sha)
    requires base in repo && c in repo
    ensures Descending(repo, FirstParents(repo, base, c))
    ensures forall x <- FirstParents(repo, base, c) :: Ancestor(repo, x, c) && !Ancestor(repo, x, base)
    decreases repo[c].generation
  {
    if !Ancestor(repo, c, base) && repo[c].parents != [] {
      var p := repo[c].parents[0];
      ChainDescends(repo, base, p);
      ParentIsAncestor(repo, c, 0);
      var tail := FirstParents(repo, base, p);
      forall x | x in tail ensures Ancestor(repo, x, c) && x != c {
        AncestorTransitive(repo, x, p, c);
        AncestorIsOlder(repo, x, p);
      }
      assert FirstParents(repo, base, c) == [c] + tail;
    }
  }

  lemma ChainFitsRange(repo: Repo, base: Sha, head: Sha, newer: nat, cut: Sha)
    requires base in repo && head in repo && cut in repo
    requires newer <= |FirstParents(repo, base, head)|
    requires cut == base || (newer < |FirstParents(repo, base, head)| && cut == FirstParents(repo, base, head)[newer])
    ensures newer <= |Range(repo, cut, head)|
  {
    var chain := FirstParents(repo, base, head);
    ChainDescends(repo, base, head);
    forall i | 0 <= i < newer ensures chain[i] in Range(repo, cut, head) {
      if Ancestor(repo, chain[i], cut) && cut != base {
        AncestorAntisymmetric(repo, chain[i], cut);
      }
    }
    DistinctFit(chain[..newer], Range(repo, cut, head));
  }

  lemma NewestInPrefix(chain: seq<Sha>, n: nat, t: Sha, receipts: set<Sha>)
    ensures var whole := NewestIn(chain + [t], receipts);
            var capped := NewestIn(Take(chain, n) + [t], receipts);
            capped == whole
            || (n < |chain| && capped.GetOr(t) == t && whole.Some? && exists k | n <= k < |chain| :: chain[k] == whole.value)
  {
    var whole, capped := NewestIn(chain + [t], receipts), NewestIn(Take(chain, n) + [t], receipts);
    if whole.Some? && n < |chain| {
      var k :| 0 <= k < |chain + [t]| && (chain + [t])[k] == whole.value && forall i | 0 <= i < k :: (chain + [t])[i] !in receipts;
      var short := Take(chain, n) + [t];
      assert forall i | 0 <= i < n :: short[i] == (chain + [t])[i];
      assert short[n] == t == (chain + [t])[|chain|];
      if k < n {
        assert short[k] == whole.value;
      } else {
        assert forall i | 0 <= i < n :: short[i] !in receipts;
        if k < |chain| { assert chain[k] == whole.value; }
      }
    }
    if whole.None? {
      assert forall i | 0 <= i < |chain| :: (chain + [t])[i] == chain[i];
      assert (chain + [t])[|chain|] == t;
    }
  }

  /** Looking for receipts among 101 chain commits only, the preview accepts the same baselines as over the whole chain. */
  lemma CapIsHarmless(repo: Repo, input: Input, receipts: set<Sha>)
    requires input.head in repo && input.base.None? && input.taskBase.Some? && input.taskBase.value in repo
    ensures var t := input.taskBase.value;
            var capped := NewestIn(Take(FirstParents(repo, t, input.head), PREVIEW_CAP + 1) + [t], receipts);
            var expected := ExpectedBase(repo, input, receipts);
            && (Reviewable(repo, input, capped.GetOr(t)) <==> Reviewable(repo, input, expected))
            && (Reviewable(repo, input, expected) ==>
                  capped == NewestIn(FirstParents(repo, t, input.head) + [t], receipts))
  {
    var t := input.taskBase.value;
    var chain := FirstParents(repo, t, input.head);
    var whole, capped := NewestIn(chain + [t], receipts), NewestIn(Take(chain, PREVIEW_CAP + 1) + [t], receipts);
    NewestInPrefix(chain, PREVIEW_CAP + 1, t, receipts);
    if capped != whole {
      var k :| PREVIEW_CAP + 1 <= k < |chain| && chain[k] == whole.value;
      ChainFitsRange(repo, t, input.head, k, chain[k]);
      ChainFitsRange(repo, t, input.head, |chain|, t);
    }
  }

  // ---- The operations ----

  ghost predicate TaskBaseHolds(repo: Repo, input: Input)
    requires input.head in repo
  {
    input.taskBase.None? || (input.taskBase.value in repo && Ancestor(repo, input.taskBase.value, input.head))
  }

  /** The newest of the capped chain, then the task baseline, at which the recipient published. */
  method LastPublishedBy(chain: seq<Sha>, taskBase: Sha, receipts: set<Sha>) returns (r: Option<Sha>)
    ensures r == NewestIn(chain + [taskBase], receipts)
  {
    var seen := set sha | sha in chain + [taskBase] && sha in receipts;
    var i := 0;
    while i < |chain| && chain[i] !in seen
      invariant i <= |chain|
      invariant NewestIn(chain + [taskBase], receipts) == NewestIn(chain[i..] + [taskBase], receipts)
    {
      assert (chain[i..] + [taskBase])[1..] == chain[i + 1..] + [taskBase];
      i := i + 1;
    }
    if i < |chain| { return Some(chain[i]); }
    assert chain[i..] + [taskBase] == [taskBase];
    return if taskBase in seen then Some(taskBase) else None;
  }

  method ValidateReviewRange(git: Readings, input: Input, base: Sha, ghost repo: Repo, ghost order: Sha -> seq<Sha>)
    returns (refusal: Option<Refusal>)
    requires Faithful(git, repo, input, order)
    ensures refusal.None? <==>
              && base in repo && Ancestor(repo, base, input.head)
              && (input.commitPending || exists p :: Changed(repo, base, input.head, p) && Some(p) != input.logPath)
  {
    assert ReadsBase(git, repo, input.head, order, base);
    var found := git.mergeBase(base);
    if base in repo {
      MergeBaseOfAncestor(repo, base, input.head);
    }
    if found.None? { return Some(GitFailure); }
    if found.value != base { return Some(NotAnAncestor); }
    if input.commitPending { return None; }
    var files := git.changedPaths(base);
    if !(exists p | p in files :: Some(p) != input.logPath) { return Some(NoProposal); }
    return None;
  }

  lemma LogSplits(repo: Repo, shas: seq<Sha>)
    requires Printable(repo) && forall i | 0 <= i < |shas| :: shas[i] in repo
    ensures Split(LogText(Entries(repo, shas)), '\0') == Fields(Entries(repo, shas)) + [""]
  {
    var entries := Entries(repo, shas);
    var fields := Fields(entries);
    forall k | 0 <= k < |fields| ensures '\0' !in fields[k] {
      assert fields[k] == if k % 2 == 0 then entries[k / 2].sha else entries[k / 2].subject;
    }
    SplitOfTerminated(fields, '\0');
  }

  method ReadCommits(fields: seq<string>, ghost entries: seq<Entry>) returns (commits: seq<Entry>)
    requires fields == Fields(entries) + [""]
    ensures commits == entries
  {
    commits := [];
    var i := 0;
    while i + 1 < |fields|
      invariant i == 2 * |commits| && |commits| <= |entries|
      invariant commits == entries[..|commits|]
    {
      commits := commits + [Entry(fields[i], fields[i + 1])];
      i := i + 2;
    }
  }

  /** Every commit of the listing but the newest, oldest first. */
  method ReadCandidates(fields: seq<string>, ghost entries: seq<Entry>) returns (candidates: seq<Entry>)
    requires fields == Fields(entries) + [""]
    ensures candidates == Reversed(if entries == [] then [] else entries[1..])
  {
    candidates := [];
    var i := |fields| - 2;
    ghost var k := |entries|;
    while i >= 2
      invariant i == 2 * k - 1 && 0 <= k <= |entries| && (k == 0 ==> entries == [])
      invariant candidates == Reversed(entries[k..])
    {
      assert entries[k - 1..][1..] == entries[k..];
      candidates := candidates + [Entry(fields[i - 1], fields[i])];
      i, k := i - 2, k - 1;
    }
    if entries == [] { assert entries[k..] == []; }
  }

  lemma CappedListing(repo: Repo, base: Sha, head: Sha, order: seq<Sha>)
    requires base in repo && head in repo && Lists(order, Range(repo, base, head), head)
    ensures |order| == |Range(repo, base, head)|
    ensures |Take(order, PREVIEW_CAP + 1)| > PREVIEW_CAP <==> |Range(repo, base, head)| > PREVIEW_CAP
    ensures |Range(repo, base, head)| <= PREVIEW_CAP ==>
              Take(order, PREVIEW_CAP + 1) == order
              && Take(FirstParents(repo, base, head), PREVIEW_CAP + 1) == FirstParents(repo, base, head)
  {
    DistinctFill(order, Range(repo, base, head));
    ChainFitsRange(repo, base, head, |FirstParents(repo, base, head)|, base);
  }

  /** The candidates shown with a base: itself, then the later commits of HEAD's first-parent chain oldest first, HEAD
      itself only for a pending commit. */
  ghost function CandidatesFrom(repo: Repo, input: Input, base: Sha): seq<Entry>
    requires input.head in repo && base in repo
  {
    var chain := Entries(repo, FirstParents(repo, base, input.head));
    [Entry(base, repo[base].subject)] + Reversed(if chain == [] then [] else chain[1..])
    + (if input.commitPending && base != input.head then [Entry(input.head, repo[input.head].subject)] else [])
  }

  lemma FoundExactly(chain: seq<Sha>, t: Sha, receipts: set<Sha>)
    ensures NewestIn(chain + [t], receipts).Some? <==> t in receipts || exists c <- receipts :: c in chain
  {
    var whole := chain + [t];
    match NewestIn(whole, receipts)
    case Some(c) =>
      var k :| 0 <= k < |whole| && whole[k] == c;
      assert k < |chain| ==> chain[k] == c;
    case None =>
      assert whole[|chain|] == t;
      forall c | c in chain
        ensures c !in receipts
      {
        var i :| 0 <= i < |chain| && chain[i] == c;
        assert whole[i] == c;
      }
  }

  /** The base a preview starts from, by the capped chain, and why. */
  method ChooseBase(git: Readings, input: Input, receipts: set<Sha>, ghost repo: Repo, ghost order: Sha -> seq<Sha>)
    returns (base: Sha, since: Since)
    requires Faithful(git, repo, input, order) && TaskBaseHolds(repo, input)
    ensures Reviewable(repo, input, base) <==> Reviewable(repo, input, ExpectedBase(repo, input, receipts))
    ensures Reviewable(repo, input, base) ==> base == ExpectedBase(repo, input, receipts)
    ensures Reviewable(repo, input, base) ==> since == ExpectedSince(repo, input, receipts)
  {
    if input.base.Some? { return input.base.value, Explicit; }
    CapIsHarmless(repo, input, receipts);
    var recipient := LastPublishedBy(git.taskChain, input.taskBase.value, receipts);
    base := recipient.GetOr(input.taskBase.value);
    since := if recipient.Some? then Recipient else Task;
    FoundExactly(FirstParents(repo, input.taskBase.value, input.head), input.taskBase.value, receipts);
  }

  /** Everything shown for an admissible base, whose range is within the cap. */
  method ShowRange(git: Readings, input: Input, base: Sha, ghost repo: Repo, ghost order: Sha -> seq<Sha>)
    returns (r: Option<(seq<Entry>, seq<Entry>)>)
    requires Faithful(git, repo, input, order) && base in repo && Ancestor(repo, base, input.head)
    ensures r.Some? <==> |Range(repo, base, input.head)| <= PREVIEW_CAP
    ensures r.Some? ==> r.value == (Entries(repo, order(base)), CandidatesFrom(repo, input, base))
  {
    assert ReadsBase(git, repo, input.head, order, base);
    CappedListing(repo, base, input.head, order(base));
    ghost var listed := Take(order(base), PREVIEW_CAP + 1);
    LogSplits(repo, listed);
    var commits := ReadCommits(Split(git.log(base), '\0'), Entries(repo, listed));
    if |commits| > PREVIEW_CAP { return None; }
    ghost var chain := Take(FirstParents(repo, base, input.head), PREVIEW_CAP + 1);
    LogSplits(repo, chain);
    var older := ReadCandidates(Split(git.firstParentLog(base), '\0'), Entries(repo, chain));
    var candidates := [Entry(base, git.subject(base))] + older;
    if input.commitPending && base != input.head {
      HeadIsListed(repo, base, input.head, order(base));
      candidates := candidates + [Entry(input.head, commits[0].subject)];
    }
    assert commits == Entries(repo, order(base));
    assert chain == FirstParents(repo, base, input.head);
    assert candidates == CandidatesFrom(repo, input, base);
    return Some((commits, candidates));
  }

  /** The preview succeeds exactly on a steady HEAD, a task baseline that HEAD contains, and a reviewable expected base,
      and then shows the whole range, and all of the chain of candidates, from that base. */
  method PreviewCommittedRange(git: Readings, input: Input, receipts: set<Sha>, ghost repo: Repo, ghost order: Sha -> seq<Sha>)
    returns (r: Result<Preview, Refusal>)
    requires Faithful(git, repo, input, order)
    ensures r.Ok? <==> git.headBefore == input.head == git.headAfter && TaskBaseHolds(repo, input)
                       && Reviewable(repo, input, ExpectedBase(repo, input, receipts))
    ensures r.Ok? ==> var base := ExpectedBase(repo, input, receipts);
                      && r.value.base == base
                      && r.value.commits == Entries(repo, order(base))
                      && r.value.candidates == CandidatesFrom(repo, input, base)
                      && r.value.since == ExpectedSince(repo, input, receipts)
  {
    if git.headBefore != input.head { return Err(HeadChanged); }
    if input.taskBase.Some? && input.taskBase.value != input.head && !git.taskBaseIsAncestor { return Err(NotAnAncestor); }
    var base, since := ChooseBase(git, input, receipts, repo, order);
    var refusal := ValidateReviewRange(git, input, base, repo, order);
    if refusal.Some? { return Err(refusal.value); }
    var shown := ShowRange(git, input, base, repo, order);
    if shown.None? { return Err(TooManyCommits); }
    if git.headAfter != input.head { return Err(HeadChanged); }
    var (commits, candidates) := shown.value;
    return Ok(Preview(base, since, commits, candidates));
  }

  lemma HeadIsListed(repo: Repo, base: Sha, head: Sha, order: seq<Sha>)
    requires base in repo && head in repo && base != head && Ancestor(repo, base, head)
    requires Lists(order, Range(repo, base, head), head)
    ensures order != [] && order[0] == head
  {
    if Ancestor(repo, head, base) {
      AncestorAntisymmetric(repo, base, head);
    }
  }

  /** Every candidate offered passes the ancestry check if chosen as the explicit base of the next preview. */
  lemma CandidatesAreAncestors(repo: Repo, input: Input, base: Sha)
    requires input.head in repo && base in repo && Ancestor(repo, base, input.head)
    ensures forall i | 0 <= i < |CandidatesFrom(repo, input, base)| ::
              var sha := CandidatesFrom(repo, input, base)[i].sha; sha in repo && Ancestor(repo, sha, input.head)
  {
    ChainDescends(repo, base, input.head);
    var chain := FirstParents(repo, base, input.head);
    var entries := Entries(repo, chain);
    forall i | 0 <= i < |entries| ensures Ancestor(repo, entries[i].sha, input.head) {
      assert chain[i] in chain;
    }
  }

  predicate Offers(list: seq<Entry>, sha: Sha) {
    exists i :: 0 <= i < |list| && list[i].sha == sha
  }

  lemma OffersBoth(a: seq<Entry>, b: seq<Entry>, sha: Sha)
    ensures Offers(a + b, sha) <==> Offers(a, sha) || Offers(b, sha)
  {
    var both := a + b;
    if Offers(a, sha) {
      var i :| 0 <= i < |a| && a[i].sha == sha;
      assert both[i].sha == sha;
    }
    if Offers(b, sha) {
      var i :| 0 <= i < |b| && b[i].sha == sha;
      assert both[|a| + i].sha == sha;
    }
  }

  lemma OffersReversed(list: seq<Entry>, sha: Sha)
    ensures Offers(Reversed(list), sha) <==> Offers(list, sha)
  {
    var back := Reversed(list);
    if Offers(list, sha) {
      var i :| 0 <= i < |list| && list[i].sha == sha;
      assert back[|list| - 1 - i] == list[i];
    }
  }

  lemma OffersOlder(repo: Repo, chain: seq<Sha>, sha: Sha)
    requires chain != []
    ensures Offers(Entries(repo, chain)[1..], sha) <==> sha in chain[1..]
  {
    var older := Entries(repo, chain)[1..];
    assert forall i | 0 <= i < |older| :: older[i].sha == chain[1..][i];
  }

  /** A commit is offered exactly if it is the base, or on HEAD's first-parent chain back to it, HEAD itself only for a
      pending commit. */
  lemma OfferedExactly(repo: Repo, input: Input, base: Sha, sha: Sha)
    requires input.head in repo && base in repo && Ancestor(repo, base, input.head)
    ensures Offers(CandidatesFrom(repo, input, base), sha) <==>
            sha == base || (sha in FirstParents(repo, base, input.head) && (sha == input.head ==> input.commitPending))
  {
    var chain := FirstParents(repo, base, input.head);
    ChainHasHeadOnce(repo, base, input.head);
    var first := [Entry(base, repo[base].subject)];
    var older := if chain == [] then [] else Entries(repo, chain)[1..];
    var last := if input.commitPending && base != input.head then [Entry(input.head, repo[input.head].subject)] else [];
    assert CandidatesFrom(repo, input, base) == first + Reversed(older) + last;
    OffersBoth(first + Reversed(older), last, sha);
    OffersBoth(first, Reversed(older), sha);
    OffersReversed(older, sha);
    if chain != [] {
      OffersOlder(repo, chain, sha);
    }
    assert first[0].sha == base && (last != [] ==> last[0].sha == input.head);
  }

  lemma ChainHasHeadOnce(repo: Repo, base: Sha, head: Sha)
    requires base in repo && head in repo && Ancestor(repo, base, head)
    ensures var chain := FirstParents(repo, base, head);
            && (chain == [] <==> base == head) && (chain != [] ==> chain[0] == head && head !in chain[1..])
  {
    FirstParentsWalk(repo, base, head);
    ChainDescends(repo, base, head);
    if Ancestor(repo, head, base) {
      AncestorAntisymmetric(repo, base, head);
    }
  }
}
