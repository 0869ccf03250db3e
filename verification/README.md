# AltCLI: verified models of its hardest rules

AltCLI lets a person and a controller share terminals that run coding agents. Much of what it promises rests on small,
tricky pieces of logic: a tracker fed by late and duplicated hook events, a commit handoff over Git history, an image
store under concurrent uploads, a reader of terminal screens, a hand-written configuration scanner, an input queue that
must not cut or repeat keystrokes, a byte budget, and a paged read of a changing list. This project states those pieces
in Dafny, in the form the source gives them, and proves what the source and its comments promise about them.

Code that computes a value is a function with lemmas. Code that changes state step by step is a class or a method with
loops, proved against a specification function; the promises are then proved about that function, over every input, every
run or every reachable state. Concurrency is a machine of atomic steps in any order, split at the awaits of the source.

| files | what they model |
|---|---|
| Activity, ActivityEvidence, AgentActivityTracker | the native turn tracker: its rules and registry with suspended completions, what an entry says of the hook that wrote it, then the objects it mutates |
| CommitGraph, TaskBaseline, ReviewPreview, Publication, PublicationAcceptance, GitListings | the commit handoff over a finite commit graph, and the parsing of Git's listings |
| AttachmentStore, AttachmentSafety, AttachmentAges, AttachmentUploads, AttachmentService | the image store: all interleavings of its steps, what they keep, when rows may go, how an upload ends, and the calls over its tables |
| PromptArea, PromptVerdicts | recognition of a terminal's input area, the two documented layouts as printers, and exactly which screens get which verdict |
| CodeUnits, BalancedLine, NotifyGrammar, NotifyRoundTrip, NotifyLanguage, NotifyToml, NotifyWritten, RootNotify | the reader of the root `notify` array, its printers, the exact language it accepts, how its strings compare with TOML's, and the line the installer writes |
| JsonBytes, SquashMessage, IntegrateRequest | the squash message budget and the size of a confirmation request |
| AttentionRead | the paged snapshot of open items |
| TerminalInput, InputAdmission, NativeTerminal, WriterStop, HoldClearing, HoldGuarantees | a terminal's input lane, what it admits and requests, its handlers, stopping writers, clearing holds and what that guarantees |
| Options, Text, Characters | shared vocabulary: results, splitting and joining, whitespace and UTF-8 lengths |

## What is assumed of the surroundings

- Git's answers are inputs that agree with a finite commit graph whose commits carry a generation number: `merge-base --all`
  gives the maximal common ancestors, `--independent` the maximal elements, a range log lists its commits with HEAD first.
- Timestamps are integers; the source compares ISO strings, whose order is the same.
- JSON decoding of journal lines is any function that does not mind a final line feed. Image inspection and hashing are any
  functions.
- Each database transaction, each file operation and each stretch between two awaits is one atomic step.
- A pane inspection, a binding check, a receipt or an HTTP answer is an argument that may have any value.
- Two states of the attention list with equal revisions have equal open sets, and lists are ordered by position.
- Every terminal reset frame brings a generation its connection has not had. The lemma
  `TerminalInput.ReusedGenerationRepeatsNumbers` shows why this is needed.

## Results that are not plain confirmations

- The greedy squash listing is the longest that fits except in one case, which `SquashMessage.GreedyIsLongest` gives exactly:
  the listing that leaves out a single commit does not fit, yet the full one does, because it needs no trailer.
  `SquashMessage.LastStepShrinksExactly` says the same of the input: the last line is shorter than the trailer by more than
  the room the full listing leaves. `SquashMessage.GreedyCanStopShort` exhibits such an input. No longer *partial* listing
  ever fits.
- Start times in the tracker never go back except when a confirmation is stamped by a clock behind the observed start;
  `TurnRegistry.LateClockMovesStartBack` gives the exact condition, and `TurnRegistry.ConfirmationByLateClock` a run that
  meets it.
- Delivering a hook twice is not idempotent in two cases, which `TurnRegistry.DuplicatesChangeNothing` gives exactly: an
  unsettled completion without a sequence number moves the time it was last seen, and a completion whose first binding check
  failed may be recovered by the second. `TurnRegistry.CompletionSeenTwice` is a run of the first kind.
- After a stop is requested, a frozen writer's generation is writable again if and only if the server grants the keyboard in
  it once more (`WriterStop.StopIsFinal`), which `TerminalInput.GrantedAgainWrites` shows to be possible for the page alone.
  The server draws a fresh generation for every grant (web/src/server/terminal-broker.ts:133-136).
- The notify line that the hook installer writes with `JSON.stringify` is always read back exactly
  (`NotifyWritten.InstalledNotifyIsRead`), lone surrogates and control characters included, although TOML itself forbids
  escaped surrogates.
- The strings that `rootNotify` reads are those of TOML v1.0.0 (section "String") that fit on one line, and besides these
  exactly the ones with a raw control character or an escaped surrogate (`NotifyToml.BasicIsTomlExactly`,
  `NotifyToml.LiteralIsTomlExactly`, `NotifyToml.TomlStringsAreRead`); `NotifyToml.ForbiddenStringsAreRead` has both kinds.
- With `remote`, as clearing holds calls it, a stop is always requested: `WriterStop.RequestStop` shows that nothing is
  requested only without it.

## Model

| member | source | states |
|---|---|---|
| TurnRules.AwaitsExactlyWhenRecoverable | web/src/server/agent-activity.ts:98-116 | a completion reaches the await exactly when no turn is observed, no other session, and no confirmation at or after its start |
| TurnRules.FinishedTurnHolds | web/src/server/agent-activity.ts:98-119 | a finished turn is replaced by a strictly later turn start and ignores every other hook |
| TurnRegistry.StepMovesCells | web/src/server/agent-activity.ts:90-138 | one step leaves an entry, replaces it by a new object, or mutates a recorded turn in place; an entry without a turn is never mutated |
| TurnRegistry.RunKeepsRecoverable | web/src/server/agent-activity.ts:109-119 | in every run, while the entry is the object a suspended completion found, that completion is still recoverable against it |
| TurnRegistry.ResumedIsRecordedAtOnce | web/src/server/agent-activity.ts:111-138 | a resumed completion whose object is still there writes what it would have written at once |
| TurnRegistry.InterleavingsSerialize | web/src/server/agent-activity.ts:63-138 | every interleaving of hooks, awaits and confirmations leaves the registry of a run in which each completion reads and writes atomically |
| TurnRegistry.StartsNeverGoBack | web/src/server/agent-activity.ts:63-138 | start times of turns and confirmations never go back in a step, the clock not being behind observed starts |
| TurnRegistry.StartsNeverGoBackInRuns | web/src/server/agent-activity.ts:63-138 | the same between any two points of any run |
| TurnRegistry.LateClockMovesStartBack | web/src/server/agent-activity.ts:63-72 | a start goes back if and only if an accepted confirmation is stamped before it |
| TurnRegistry.ConfirmationByLateClock | web/src/server/agent-activity.ts:63-72 | a run in which it does |
| TurnRegistry.FinishedTurnsYieldOnlyToLaterStarts | web/src/server/agent-activity.ts:90-138 | an idle or interrupted turn changes if and only if an admitted, strictly later turn start is delivered for it |
| TurnRegistry.DuplicatesChangeNothing | web/src/server/agent-activity.ts:90-138 | recording a hook a second time, whatever the binding check answers either time, changes the registry if and only if an unsettled, unsequenced completion is seen again at another time or a completion that was not bound now is; and it says to what |
| TurnRegistry.CompletionSeenTwice | web/src/server/agent-activity.ts:117-138 | a run in which the second delivery of a completion moves the time it was last seen |
| TurnEvidence.ClaudeSettlesOnlyOnEvidence | web/src/server/agent-activity.ts:57-61 | after any run, an agent other than Codex is settled for Git if and only if the step that last wrote its entry applied the exactly matching, settled completion with clear background work |
| TurnEvidence.CodexSettlesOnlyOnEvidence | web/src/server/agent-activity.ts:57-61 | after any run, Codex is settled for Git if and only if that step applied a startup, or the matching settled completion without active background work |
| TurnEvidence.PhaseIsTold | web/src/server/agent-activity.ts:63-137 | after any run, an entry is idle if and only if the step that last wrote it applied the turn's settled completion, from Codex or with clear background work; working if and only if it applied the start or a Claude completion with active work; interrupted if and only if it said so; ready if and only if it was a startup or a confirmation |
| TurnEvidence.AdmittedExactly | web/src/server/agent-activity.ts:74-95 | a hook speaks for a process if and only if it is complete and that very process of that kind is in the foreground of the pane it names |
| TurnEvidence.StartIsRecorded | web/src/server/agent-activity.ts:98-108 | a start is recorded if and only if it is later than the turn or confirmation observed |
| TurnEvidence.StartupIsRecorded | web/src/server/agent-activity.ts:90-97 | a startup is recorded if and only if nothing is observed |
| TurnEvidence.CompletionIsRecorded | web/src/server/agent-activity.ts:111-138 | a completion is written at once if and only if it matches the observed, unfinished turn with a new sequence, and awaits the binding check if and only if no turn is observed |
| TurnEvidence.RecoveryIsRecorded | web/src/server/agent-activity.ts:114-138 | a resumed completion is written if and only if the binding stands, its sequence is positive, and the entry is the object it found |
| TurnEvidence.ConfirmationIsRecorded | web/src/server/agent-activity.ts:63-72 | a confirmation is written if and only if the unknown phase it was shown is the current one, and what it writes |
| TurnEvidence.ConfirmationIsNeverEvidence | web/src/server/agent-activity.ts:57-72 | a human confirmation, as long as it stands, never satisfies the Git test for any CLI |
| ActivityTracker.Observation.Complete | web/src/server/agent-activity.ts:120-137 | the in-place write of a completion is the rules' finishing of the observation |
| ActivityTracker.AgentActivityTracker.Record | web/src/server/agent-activity.ts:73-116 | up to the await, the mutable map does what the registry rules do, and returns the suspended call if there is one |
| ActivityTracker.AgentActivityTracker.RecordCompletion | web/src/server/agent-activity.ts:109-138 | the completion half: written in place, ignored or suspended exactly as the rules say |
| ActivityTracker.AgentActivityTracker.Continue | web/src/server/agent-activity.ts:113-138 | after the await, the sequence test, the object identity test and the write do what the rules' resumption does |
| ActivityTracker.AgentActivityTracker.ConfirmReady | web/src/server/agent-activity.ts:63-72 | accepts and installs exactly as the rules' confirmation |
| ActivityTracker.AgentActivityTracker.SettledEvidence | web/src/server/agent-activity.ts:57-61 | the query on the objects is the rules' Git test |
| CommitGraph.MaximalAbove | web/src/server/commit-handoff.ts:113-117 | above every commit of a finite set lies a maximal one |
| CommitGraph.GreatestIsUniqueMaximum | web/src/server/commit-handoff.ts:117-118 | a set has a greatest commit if and only if `--independent` leaves exactly that one |
| CommitGraph.MergeBaseOfAncestor | web/src/server/commit-handoff.ts:157-158 | a commit is among its merge bases with HEAD if and only if HEAD contains it, and is then the only one |
| TaskBaseline.BasesShareGreatest | web/src/server/commit-handoff.ts:113-118 | the merge bases have the greatest elements that all work shared with the integration tips has |
| TaskBaseline.HeadAmongBases | web/src/server/commit-handoff.ts:114-116 | HEAD is among the bases if and only if some tip contains it |
| TaskBaseline.BaselineIsLatestSharedCommit | web/src/server/commit-handoff.ts:104-119 | off integration branches the baseline is a commit if and only if that commit is the greatest shared one: HEAD if a tip contains it, none if there is no greatest |
| TaskBaseline.BaselineOfReferences | web/src/server/commit-handoff.ts:104-119 | the same told by references: the integration tips are refs/heads/ and refs/remotes/origin/ of the default branch, main and the configured names; the baseline is the commit shared with one of them that contains every other such commit |
| ReviewPreview.ChainDescends | web/src/server/commit-handoff.ts:237-245 | HEAD's first-parent chain descends in ancestry and stays outside the baseline's history |
| ReviewPreview.FirstParentsWalk | web/src/server/commit-handoff.ts:237-245 | the chain is the walk from HEAD to each first parent, ending before what the base contains |
| ReviewPreview.ChainFitsRange | web/src/server/commit-handoff.ts:241-242 | the chain commits newer than a cut all lie in the range from that cut |
| ReviewPreview.CapIsHarmless | web/src/server/commit-handoff.ts:240-258 | looking for receipts among 101 chain commits accepts the same baselines as over the whole chain, and finds the same one when accepted |
| ReviewPreview.LastPublishedBy | web/src/server/commit-handoff.ts:240-245 | the newest published commit of the listed chain, then the task baseline |
| ReviewPreview.ValidateReviewRange | web/src/server/commit-handoff.ts:157-163 | passes if and only if the base is an ancestor and the range, or a pending commit, holds a project change |
| ReviewPreview.ReadCommits | web/src/server/commit-handoff.ts:255-257 | reading a printed NUL-separated log gives back its commits and subjects |
| ReviewPreview.ReadCandidates | web/src/server/commit-handoff.ts:261-263 | reading the first-parent log gives every commit but the newest, oldest first |
| ReviewPreview.PreviewCommittedRange | web/src/server/commit-handoff.ts:247-267 | succeeds exactly on a steady HEAD, a task baseline HEAD contains, and a reviewable base; the base is the explicit one, else the newest receipt on the whole chain, else the task baseline; and `since` is `recipient` exactly if a receipt lies anywhere on the whole chain or at the task baseline |
| ReviewPreview.CandidatesAreAncestors | web/src/server/commit-handoff.ts:260-264 | every later baseline offered is an ancestor of HEAD |
| ReviewPreview.OfferedExactly | web/src/server/commit-handoff.ts:260-264 | a commit is offered if and only if it is the base or on the first-parent chain back to it, HEAD only for a pending commit |
| Publication.ValidateExistingLog | web/src/server/commit-handoff.ts:130-139 | accepts exactly the empty log and line-terminated schema-1 journals |
| Publication.HeadsFormChain | web/src/server/commit-handoff.ts:207-214 | over a run of accepted turns each HEAD is the previous one or a commit whose single parent it is, and always the latter with a mirrored journal |
| Publication.ValidEntryIsJournalLine | web/src/server/commit-handoff.ts:182-194 | an entry that passes validation is one an existing journal may hold |
| Publication.TurnAppendsLine | web/src/server/commit-handoff.ts:213-223 | an accepted turn appends exactly one line, which decodes to its entry |
| Publication.JournalMirrorsRun | web/src/server/commit-handoff.ts:195-235 | after any run the tracked log is the initial log and one line a turn, decoding in order to the turns' entries |
| Publication.JournalStaysReadable | web/src/server/commit-handoff.ts:130-139 | after any run an acceptable journal is still accepted, and reads as the initial entries and then the turns' |
| Publication.ReviewsKeepProject | web/src/server/commit-handoff.ts:224-228 | a run of turns that may only review changes no project file |
| PublicationAcceptance.AcceptedExactly | web/src/server/commit-handoff.ts:197-235 | a publication is accepted if and only if checkout, result file, entry, commit, mirrored line, project changes and reported outcome are all as required, each told by the graph and the texts; and the result names HEAD, its entry and whether project files changed |
| PublicationAcceptance.ReportedOutcome | web/src/server/commit-handoff.ts:229-230 | a reported outcome is accepted if and only if it is the one that the decision and the changes imply, and none is for work |
| PublicationAcceptance.ValidExactly | web/src/server/commit-handoff.ts:182-194 | an entry is valid if and only if it is the assigned identity together with an acceptable report, and nothing else |
| PublicationAcceptance.JournalsAcceptedExactly | web/src/server/commit-handoff.ts:130-139 | an existing log is accepted if and only if it consists of terminated lines that decode to schema-1 implementation entries |
| GitListings.EntriesStartAtTags | web/src/server/commit-handoff.ts:25-31 | some NUL-terminated entry begins with a hiding tag if and only if such a tag follows a NUL or starts the listing |
| GitListings.HiddenIndexFlags | web/src/server/commit-handoff.ts:21-36 | the scanner reports a hidden entry exactly when some NUL-terminated entry starts with a lowercase tag or S, however the listing is cut into chunks |
| GitListings.ReadStatus | web/src/server/commit-handoff.ts:51-60 | the loop counts every change and shows the first 100 |
| GitListings.StatusRoundTrip | web/src/server/commit-handoff.ts:51-60 | reading a printed status recovers every change with its rename source |
| AttachmentStore.ReadBody | web/src/server/attachments.ts:53-73 | accumulating chunks until the end or a failure gives the body or the error of the recursive reading |
| AttachmentStore.BodyFitsReservation | web/src/server/attachments.ts:63-71 | a body read is nonempty, within 10 MiB, within what its upload reserved, and of the declared length |
| AttachmentUploads.BodyReadExactly | web/src/server/attachments.ts:53-73 | a body is read if and only if data chunks and then the end spell it, it is nonempty, at most 10 MiB and of the declared length |
| AttachmentUploads.GoodUploadIsPublished | web/src/server/attachments.ts:152-165 | an upload whose body is read and whose steps succeed is published: one file with the body, and a row with its size and digest |
| AttachmentUploads.FailedUploadLeavesNothing | web/src/server/attachments.ts:172-176 | an upload that fails leaves neither its row nor any of its files, and nothing else changes |
| AttachmentSafety.RowsMove | web/src/server/attachments.ts:142-222 | every step adds a new row within the quota, deletes one unreferenced or unfinished, publishes one by its own upload, or leaves rows alone |
| AttachmentSafety.CleanupSparesUploads | web/src/server/attachments.ts:177-222 | no removal, reclaim or recovery deletes the row of a running upload |
| AttachmentSafety.PublishedFileStays | web/src/server/attachments.ts:172-207 | no step deletes or changes the file of a published row that stays |
| AttachmentSafety.ReachableStates | web/src/server/attachments.ts:113-207 | in every reachable state, crashes included: at most 512 MiB reserved, 1000 rows and 2 uploads, one row per request, and every published row has its file with the recorded size and digest |
| AttachmentSafety.PinnedStays | web/src/server/attachments.ts:43-51 | a referenced row and its file are the same in every later state of the run |
| AttachmentSafety.PinnedImagesAreKept | web/src/server/attachments.ts:43-51 | once a pin succeeds, no interleaving deletes or changes the pinned rows or files, which match their descriptors |
| AttachmentAges.AgesCountFromReservation | web/src/server/attachments.ts:141-150 | the age of every row of every run counts from its reservation, and its lease from there |
| AttachmentAges.DraftsGoByAge | web/src/server/attachments.ts:177-222 | in every run a published image goes only unreferenced, and by its own removal or after an earlier scan found it at least 24 hours old |
| AttachmentAges.UploadsGoByLease | web/src/server/attachments.ts:172-207 | in every run an unfinished upload goes only by its own end, by recovery while not running, or after an earlier scan found its lease ended while not running |
| AttachmentAges.ReclaimTakesExactly | web/src/server/attachments.ts:178-190 | a scan and the deletion it calls for take a row if and only if nothing uses it and it is a day old, or unfinished, not running and past its lease |
| AttachmentCalls.AttachmentService.Reserve | web/src/server/attachments.ts:141-151 | reserves exactly when the quota and the request identifier allow it, and says what it stores |
| AttachmentCalls.AttachmentService.Pin | web/src/server/attachments.ts:44-51 | records every descriptor's use, or none, and which |
| AttachmentCalls.AttachmentService.Remove | web/src/server/attachments.ts:208-222 | removes exactly a published, unreferenced row and its one file, fails with the row gone when that file cannot be unlinked, or changes nothing |
| AttachmentCalls.AttachmentService.Reclaim | web/src/server/attachments.ts:177-194 | deletes exactly the unused rows that are published and at least 86400000 ms old, or unfinished, not running and past their lease, with those of their files that can be unlinked, and counts them; nothing else changes |
| AttachmentCalls.AttachmentService.Recover | web/src/server/attachments.ts:195-207 | leaves exactly the surviving rows, the files that belong to them, and files that cannot be unlinked |
| PromptArea.FindArea | web/src/core/prompt-leftover.ts:14-26 | the two scans from the bottom find the area the layout rules define |
| PromptArea.FindInputRows | web/src/core/prompt-leftover.ts:28-34 | the loop finds the lowest prompt row, and its area is checked for indentation |
| PromptLayouts.PrintedDraftIsRecognized | web/src/core/prompt-leftover.ts:11-34 | a screen printed in either documented layout, over any scrollback, draft and wrapping, is recognized as exactly the draft's rows |
| PromptLayouts.ScreenVerdictIsDraftVerdict | web/src/core/prompt-leftover.ts:41-58 | the verdict on a printed screen is the verdict on its draft alone |
| PromptVerdicts.OnlyIsJustTheCommand | web/src/core/prompt-leftover.ts:52-56 | `only` is given if and only if the command is nonempty and the draft is a paste token for its lines, or the command up to whitespace, starting right after the prompt, with as many blank rows as the command has empty lines |
| PromptVerdicts.VerdictExactly | web/src/core/prompt-leftover.ts:47-58 | each verdict on a printed screen if and only if: `mixed` when the command stands among other text, `unreadable` when it is empty or nowhere to be seen |
| PromptVerdicts.RecognizedExactly | web/src/core/prompt-leftover.ts:11-34 | rows are recognized as an input area if and only if they are the lowest prompt row and indented rows, closed by the rule above it or by a blank row and a footer of one to three rows |
| PromptVerdicts.PromptAndRuleRows | web/src/core/prompt-leftover.ts:4-7 | a prompt row is one of three symbols alone or before whitespace, a rule row three or more box lines |
| PromptLayouts.CommandAloneIsOnly | web/src/core/prompt-leftover.ts:41-56 | a command alone with no leading whitespace, its lines wrapped into nonblank pieces, is always `only` |
| PromptLayouts.EraseCoversDraft | web/src/core/prompt-leftover.ts:35-40 | the deletion count is at least the visible characters of the draft |
| PromptVerdicts.EraseCountsRows | web/src/core/prompt-leftover.ts:35-40 | the deletion count is the length of the draft's rows joined by line breaks |
| BalancedLine.Balanced | web/src/server/cli-install.ts:23-34 | the loop over a line with its stack accepts what the recursive scanner accepts |
| BalancedLine.ClosesExactlyDyckWords | web/src/server/cli-install.ts:30-33 | the stack closes exactly the Dyck words over two kinds of brackets |
| BalancedLine.BalancedLines | web/src/server/cli-install.ts:23-34 | a line is accepted if and only if it is a row of closed strings, brackets forming a Dyck word outside them, other characters and a comment |
| NotifyRoundTrip.ItemsRoundTrip | web/src/server/cli-install.ts:43-65 | printing any elements of an array and reading them gives their strings back |
| NotifyRoundTrip.DocumentRoundTrip | web/src/server/cli-install.ts:19-66 | printing any one-line assignments and then a notify array, with any quoting, escapes, comments, breaks and trailing comma, and reading it gives exactly its strings |
| NotifyRoundTrip.ListHasItems | web/src/server/cli-install.ts:43-65 | every list of strings can be printed so |
| NotifyLanguage.StringsExactly | web/src/server/cli-install.ts:35-65 | strings are returned if and only if the text is a printed document of those strings |
| NotifyLanguage.AbsentExactly | web/src/server/cli-install.ts:35-41 | null is returned if and only if everything before the first table or the end is space, comments and one-line assignments to other bare keys |
| NotifyToml.BasicIsTomlExactly | web/src/server/cli-install.ts:49-61 | a basic string that is read is TOML's if and only if none of its characters is a raw control character and none of its escapes a surrogate; and then it is read as the value TOML gives it |
| NotifyToml.LiteralIsTomlExactly | web/src/server/cli-install.ts:49-54 | a literal string that is read is TOML's if and only if it has no raw control character |
| NotifyToml.TomlStringsAreRead | web/src/server/cli-install.ts:46-61 | every one-line TOML string is read up to its closing delimiter, as the value TOML gives it |
| NotifyToml.ForbiddenStringsAreRead | web/src/server/cli-install.ts:50-59 | an escaped surrogate and a raw NUL are read although TOML forbids them |
| NotifyToml.HexDigitsAreStandard | web/src/server/cli-install.ts:57-59 | the digits of an escape are the hexadecimal ones in either case, each with its value |
| NotifyToml.BareKeysAreToml | web/src/server/cli-install.ts:37-38 | the key characters are those of TOML's bare keys, and the key is `notify` |
| NotifyWritten.InstalledNotifyIsRead | scripts/lib/hook-config.mjs:109 | the notify line the installer writes, whatever its strings, after any one-line assignments, is read back as exactly those strings |
| RootNotify.Reader.Escape | web/src/server/cli-install.ts:55-59 | one escape gives its units or the refusal, and leaves the index after it |
| RootNotify.Reader.StringBody | web/src/server/cli-install.ts:49-61 | the character loop gives the string or the refusal, and leaves the index after its delimiter |
| RootNotify.Reader.Elements | web/src/server/cli-install.ts:43-65 | the element loop gives the array's outcome |
| RootNotify.Reader.StepOver | web/src/server/cli-install.ts:39-40 | passes over one line exactly when it is balanced |
| RootNotify.Reader.RootNotify | web/src/server/cli-install.ts:19-66 | the scanner with its shared index computes the reader that the round trip and the language theorems are about, and terminates |
| JsonBytes.JsonBytesAreCost | web/src/core/squash-message.ts:6 | the bytes of a stringified message are two quotes and the cost of its units, lone surrogates costing six |
| JsonBytes.CostConcat | web/src/core/squash-message.ts:6 | costs add where no surrogate pair is cut |
| SquashMessage.DefaultSquashMessage | web/src/core/squash-message.ts:9-21 | the greedy loop's message fits for all inputs, and is the greedy rendering whenever that fits |
| SquashMessage.ListedAndOmittedAddUp | web/src/core/squash-message.ts:12-16 | a rendering lists an oldest-first prefix, and listed and omitted commits add up |
| SquashMessage.DecimalDenotes | web/src/core/squash-message.ts:11-15 | a shown count is the numeral of that count without a leading zero |
| SquashMessage.ListingOneMoreGrows | web/src/core/squash-message.ts:13-16 | while commits are left out, listing one more is strictly longer |
| SquashMessage.NoLongerPartialListingFits | web/src/core/squash-message.ts:17-19 | no longer listing that still omits a commit would have fit |
| SquashMessage.GreedyIsLongest | web/src/core/squash-message.ts:17-20 | nothing longer fits if and only if naming the last commit is not what shortens the message enough |
| SquashMessage.LastStepShrinksExactly | web/src/core/squash-message.ts:12-20 | it is if and only if its line is shorter than the trailer by more than the room the full listing leaves |
| SquashMessage.GreedyCanStopShort | web/src/core/squash-message.ts:17-20 | an input on which the loop stops short of a full listing that fits: two commits without subjects under a long branch name |
| IntegrateRequest.AcceptedRequestsFit | web/src/core/project-validation.ts:59-80 | every accepted confirmation is smaller than 16 KiB as compact JSON |
| IntegrateRequest.AcceptedExactly | web/src/core/project-validation.ts:59-80 | a request is accepted if and only if it is well formed and the body spells it, field for field |
| AttentionRead.TryPages | web/src/components/AttentionList.tsx:34-42 | the page loop is one attempt, of at most twenty requests |
| AttentionRead.ReadAll | web/src/components/AttentionList.tsx:32-45 | at most three attempts of twenty requests |
| AttentionRead.AttemptCompletesExactly | web/src/components/AttentionList.tsx:34-42 | an attempt completes if and only if the revision holds for as many requests as the open set takes pages, at most twenty, and then has the whole set in order |
| AttentionRead.SnapshotsAreStates | web/src/components/AttentionList.tsx:30-45 | every snapshot is the complete ordered open set of one server state met during the read |
| AttentionRead.QuietServerIsRead | web/src/components/AttentionList.tsx:32-45 | an unchanging server is always read, or refused for more than 1000 items |
| TerminalInput.ClearKeepsStarted | web/src/components/NativeTerminal.tsx:96-103 | clearing never cuts a started event: what was sent, with what is left queued, is exactly the first of the admitted events |
| TerminalInput.RunsAreGood | web/src/components/NativeTerminal.tsx:97-163 | at every point of every run: the queue is the unsent tail of started events and then whole events in the order admitted, the counter is its content within 256 KiB, requests of a generation are numbered without gaps and at most one is in flight |
| TerminalInput.DrainedMeansWhole | web/src/components/NativeTerminal.tsx:125-163 | once drained, the server was sent exactly the admitted events, and the chunks spell their bytes |
| TerminalInput.NumbersAreConsecutive | web/src/components/NativeTerminal.tsx:134-148 | each request's number is one more than the requests of its generation before it |
| TerminalInput.ReusedGenerationRepeatsNumbers | web/src/components/NativeTerminal.tsx:316-323 | a reset to the generation it already has, with a request in flight, repeats a number and has two requests in flight |
| TerminalInput.StoppedSendsNothing | web/src/components/NativeTerminal.tsx:372-388 | until input is started anew, a lane frozen for a stop or given up asks for nothing in any generation, whatever else happens |
| TerminalInput.StoppedWritesOnlyIfGranted | web/src/components/NativeTerminal.tsx:333-339 | such a generation is writable again if and only if a keyboard frame grants it again; unless one does it is not ready and no request is made in it, input started anew included |
| TerminalInput.GrantedAgainWrites | web/src/components/NativeTerminal.tsx:333-339 | granted again in the same generation, the lane writes and can be made ready |
| InputAdmission.ChunksAreFull | web/src/components/NativeTerminal.tsx:161 | a typed event is cut every 4096 bytes, its pieces spell it, and only the first is marked |
| InputAdmission.TypingIsAdmittedExactly | web/src/components/NativeTerminal.tsx:156-163 | typing at a writable, ready and visible terminal is admitted whole if the queued bytes and it come to at most 256 KiB, gives input up if not, and changes nothing elsewhere |
| InputAdmission.ImageIsAdmittedExactly | web/src/components/NativeTerminal.tsx:194-201 | an image is admitted exactly behind an empty queue with no request unanswered |
| InputAdmission.RequestsAreMadeExactly | web/src/components/NativeTerminal.tsx:125-163 | each step makes exactly this request: the head of the queue under the next number, when none of the generation is unanswered or the one that was is answered by its receipt |
| InputAdmission.ReadyMeansWriter | web/src/components/NativeTerminal.tsx:316-388 | in every run, a terminal that takes keys is a writer |
| InputAdmission.FramesSetWriter | web/src/components/NativeTerminal.tsx:316-339 | a keyboard frame of the generation sets the writer and ends readiness with it; a reset frame starts a generation from nothing |
| InputAdmission.ClearingKeepsTail | web/src/components/NativeTerminal.tsx:97-103 | clearing keeps exactly the queue up to the first chunk that starts an event |
| InputAdmission.FreezeDropsUnsent | web/src/components/NativeTerminal.tsx:376-388 | a freeze that holds leaves nothing unsent and keeps generation and numbers |
| InputAdmission.GivenUpExactly | web/src/components/NativeTerminal.tsx:118-163 | in every run, input has been given up if and only if some step lost or closed the connection, answered this generation's request by anything but its receipt, or typed beyond the limit |
| NativeTerminals.NativeTerminal.LoseInput | web/src/components/NativeTerminal.tsx:118-124 | gives up the named connection's input if it is the live one in that generation, and nothing otherwise |
| NativeTerminals.NativeTerminal.Turn | web/src/components/NativeTerminal.tsx:131-152 | one turn of the draining loop takes the head of the queue, numbers it and requests it, or ends |
| NativeTerminals.NativeTerminal.Answered | web/src/components/NativeTerminal.tsx:136-152 | a receipt of an older generation changes nothing, a matching one goes on, any other gives input up |
| NativeTerminals.NativeTerminal.Enqueue | web/src/components/NativeTerminal.tsx:156-163 | admits, refuses or gives up an input event as the lane says, and returns the request sent |
| NativeTerminals.NativeTerminal.PushChunks | web/src/components/NativeTerminal.tsx:161-162 | the chunking loop appends the event's chunks, the first marked |
| NativeTerminals.NativeTerminal.ClearTransient | web/src/components/NativeTerminal.tsx:96-103 | the handler drops what the lane drops and recounts the bytes |
| NativeTerminals.NativeTerminal.InsertImage | web/src/components/NativeTerminal.tsx:194-201 | an image is queued only behind nothing |
| NativeTerminals.NativeTerminal.OnReset | web/src/components/NativeTerminal.tsx:316-323 | a reset frame empties the lane under the new generation and counts as a frame |
| NativeTerminals.NativeTerminal.OnKeyboard | web/src/components/NativeTerminal.tsx:333-339 | a keyboard frame of this generation sets the writer, and only a loss of it ends readiness |
| NativeTerminals.NativeTerminal.Freeze | web/src/components/NativeTerminal.tsx:376-383 | holds, refuses or reports no writer, each exactly when, and says what is dropped |
| NativeTerminals.NativeTerminal.Thaw | web/src/components/NativeTerminal.tsx:384-388 | gives the writer back if and only if connection, generation and frames are unchanged and it is connected |
| WriterStop.RequestStop | web/src/components/KeyboardSelector.tsx:19-33 | nothing is requested exactly when, without `remote`, a listed writer has no terminal here of its own; then exactly the terminals frozen so far write again, without their unsent input. Otherwise every writer with a terminal here is frozen |
| WriterStop.SettleStop | web/src/components/KeyboardSelector.tsx:31-45 | succeeds if and only if the answer is a success of the requested id and boot whose writers list every requested connection and generation as no longer live, and then returns it; otherwise every frozen terminal's input is given up. Neither makes a terminal writable |
| WriterStop.MatchingListsAll | web/src/components/KeyboardSelector.tsx:34-36 | a receipt matches if and only if the requested pairs of connection and generation are among those it lists as ended |
| WriterStop.OutcomesOfTerminals | web/src/components/KeyboardSelector.tsx:16-45 | what a stop, a return and a giving up leave of a terminal |
| WriterStop.RestoredIsGivenBack | web/src/components/KeyboardSelector.tsx:39-43 | a terminal thawed because nothing was requested has made exactly the lane's step of a stop given up: it writes in the same generation, without its unsent input |
| WriterStop.StopIsFinal | web/src/components/KeyboardSelector.tsx:16-45 | after the request, confirmed or abandoned, a frozen generation is writable again if and only if the server grants it again, whatever happens before and after the answer; unless it is, it is not ready and no further request is made in it |
| HoldClearing.ClearHolds | web/src/components/Holds.tsx:48-72 | the requests are the plan's in order up to the first not accepted, the report lists exactly the accepted ones, and only a refusal is reported as definite |
| HoldGuarantees.ReconcilesOnlyAfterEveryStop | web/src/components/Holds.tsx:57-68 | before any record is reconciled, every record with a live writer was asked to stop, by its id, boot and revision and exactly its live writers, and the receipt lists each of them as ended |
| HoldGuarantees.RunsAndDeliveryFirst | web/src/components/Holds.tsx:51-56 | runs are taken over first, in order, each by its id and command, and then the delivery is released by its command |
| HoldGuarantees.ThenEveryStop | web/src/components/Holds.tsx:57-63 | then exactly the records with live writers are asked to stop, in order |
| HoldGuarantees.ReconcilesInOrder | web/src/components/Holds.tsx:64-67 | reconciliations come last, one for each record in order, by its id and at the revision of the receipt that ended its writers, or its own if none was live |
| HoldGuarantees.OnlyTheLastMayFail | web/src/components/Holds.tsx:68-71 | every request succeeded, and every stop ended its writers, but the last one of an interrupted clearing, which is reported as definite if and only if it was refused |
| HoldGuarantees.ClearedIsEverything | web/src/components/Holds.tsx:48-68 | holds are cleared only when the last record was reconciled, and nothing is requested beyond that |
| HoldGuarantees.ReportsWhatWasAccepted | web/src/components/Holds.tsx:49-71 | the report lists the cleared warning and then exactly the accepted requests, each as what it did |

## Left out

- Processes, HTTP, WebSockets, SQLite and the file system beyond their atomic steps; React rendering, focus, labels and detail texts.
- TurnRegistry.DuplicatesChangeNothing: compares two whole recordings; one delivered between the two halves of a suspended completion is covered by the serialization instead.
- NativeTerminals.NativeTerminal.StartTyping: models only the end of starting input; acquiring the keyboard, its five-second wait and the automatic start of app terminals are left out.
- WriterStop.SettleStop: what other handlers do while the answer is awaited is not executed there; the method starts from any state of the terminals, and StopIsFinal covers the steps in between.
- HoldClearing.ClearHolds: a stop is modelled by its request and answer; its effect on the terminals is that of WriterStop. Request identifiers, confirmation flags and the fixed note are left out.
- HoldGuarantees.ReconcilesInOrder: two listed records that are equal in every field may have been settled by either's receipt.
- AttachmentSafety.ReachableStates: the UPDATE that publishes a row is the last step of an upload that can fail; the receipt read after it is taken not to.
- AttachmentCalls.AttachmentService.Reclaim: runs without interleaving; interleavings are those of AttachmentStore.
- AttachmentCalls.AttachmentService.Recover: likewise.
- Image dimensions and names, workspace checks, draft byte limits, `verify` and `reference`, and changes to stored files from outside the service.
- TaskBaseline.BaselineIsLatestSharedCommit: the output format of the reference listing is not modelled, only which tips it yields.
- Publication.TurnAppendsLine: the symbolic-link and file-mode checks of the log are one reading that is safe or not; archives of commits are left out.
- Branch creation, `assertWorktreeInput`, `isAncestor` for unknown commits and `stageRelayEligibility`, each settled by reading one branch.
- PromptLayouts.PrintedDraftIsRecognized: screens are sequences of Unicode scalar values; lone surrogates are not modelled.
- The Codex footer must have one to three nonblank rows, and rows around the draft must not look like prompt rows: outside that the source itself refuses or cannot tell.
- Quoted and dotted keys and multiline strings of TOML: the source refuses them, and so does the model. Space between elements and the bodies of comments follow the source, which takes any JavaScript whitespace and any character; how they differ from TOML's is not stated.
- Image statuses in the tray, modifier keys, paste confirmation, resizing, output acknowledgement and tmux navigation of a terminal.
- Dropping queued input by a reset, a lost connection or a freeze for a stop is deliberate; the whole-event property is about clearing and draining.
- Other request parsers and display summaries, which check one field after another.
