# A model of the application, discovery and filling rules

This project models, in Dafny, the parts of the job-application tracker whose correctness
cannot be read off one function, and proves what they promise:

* **Applications** (`ApplicationMachine`, `ApplicationCommits`, `ApplicationRuns`,
  `ApplicationInvariant`, `ApplicationSafety`, `ApplicationGuarantees`, `ApplicationEffects`,
  `ApplicationSettlement`, `ApplicationWitnesses`, `ApplicationHandlers`). One application's
  row, packets, event log, fill sessions and revoked devices form a `World`. What a handler
  commits is a function of the world at commit time *and of what the handler read*, and a
  `Step` of a run names the earlier worlds its reads came from, so any number of handlers may
  interleave with arbitrarily old reads. A run is the sequence of committed worlds. The
  invariant is proved for every world of every run and the guarantees follow from it.
  `ApplicationEffects` says, step by step, what is written and exactly when it is.
  `ApplicationHandlers` holds the handlers as they write, in order, with rollback, each proved
  to commit what its function says.
* **Packets** (`Packets`, `PacketAnswers`): which answers may go into a packet, what
  `content_hash` covers, what a fill client is granted, and the merge of questions a page asks.
* **Forms** (`FormShape`, `FormFingerprint`, `FillPlan`, `ExtensionSession`): reading controls
  into uniquely keyed fields, the canonical text of a form's shape, the plan that maps answers
  to controls, and what the extension does with a page.
* **Discovery** (`JobStore`, `BoardAbsorption`, `DiscoveryRuns`, `DiscoveryGuarantees`): the
  deduplicating upsert, absence counting and closure, with a log of what was observed kept
  beside the tables; and **boards** (`SourceHealth`): health, scans and the scheduler.
* **Generator** (`ModelOrder`, `RawLiterals`), **profile** (`ProfilePatch`) and **devices**
  (`Devices`, and `DeviceAuthentication`, which ties the device table to the revocations a
  `World` holds).
* `Ordering`, `InsertionMap` and `Common` hold stable sorting, the insertion-ordered map and
  shared values.

Conventions. SHA-256 of canonical JSON is an injective function; time is an integer number of
milliseconds. Trimming, case folding and URL handling are parameters (`Text`, `Web`, `fold`), so
results hold for whatever they do. A transaction is one step; a unique index is a condition that
refuses the step. Imperative parts of the source are classes and methods proved against
specification functions; the lemmas are about those functions.

## Where the code and what is said about it differ

The model follows the code. Each claim is shown to fail at a concrete input or run, and what
does hold is proved beside it; where that is an exact condition, it is an if-and-only-if.

* `fillable.ts` says the status `approved` *is* the record that a person read the packet. The
  machine allows `ready_for_review -> approved` for anyone: when a new packet replaces the one
  being filled and the runner's report of an unsupported page then lands, the new packet becomes
  `approved` unread (`UnsupportedReportApprovesUnread`). The claim holds of a run exactly when no
  such report lands on a packet awaiting review (`ApprovedMeansReadIff`). Filling is still
  refused, because the packet carries no approval (`FillGate`).
* Revoking a device denies whatever authenticates later and ends its open sessions, but a
  handler that had authenticated before can still open a session after
  (`RevocationDoesNotStopAnOpeningInFlight`); that session can never report
  (`RevokedIsRefused`).
* `fill.ts` says an approval whose form stops matching the one the runner saw is withdrawn on the
  next read. The fingerprint it saw is stored and compared with nothing: another fingerprint
  gives another hash but makes no packet stale (`FingerprintWithdrawsNothing`).
* `routes/jobs.ts` says a user's closure is not undone by the board. It stands exactly when the
  job was not closed already by something else (`UserClosureStandsIff`): closing a job that the
  snapshots have closed records nothing, and the posting's return reopens it
  (`ListedThenLostCloses`, `ClosureOfALostJobIsUndone`).
* `scan-scheduler.ts` says a source is never scanned faster than configured. Switching a source
  on empties its deadlines (`SwitchingOnForgetsTheInterval`), and a manual scan replaces a
  Retry-After by its own interval (`ManualScanForgetsRetryAfter`). A scheduled scan starts exactly
  when nothing is in flight and no deadline in force lies ahead (`ScheduleStartsIff`), and is
  spaced from the start before it unless a switch-on came between (`ScheduledScansAreSpaced`).
* `profile/service.ts` says `confirmed_revision` moves only when confirmed content actually
  changed. It also moves when a contact or a confirmed fact is sent again word for word, or when
  confirmed words are replaced or deleted later in the same patch (`SameContactRaisesTheFlag`,
  `SameFactRaisesTheFlag`, `ConfirmedMovesIff`, `FlagIsRightIff`); it never fails to move
  (`UnflaggedKeepsConfirmed`).
* `generate.ts` says the Python literal is byte-identical to the pattern. Written as a raw
  literal, a value that holds a carriage return, a null character, or a line feed that no
  backslash escapes is not read back; every other value is (`LiteralRoundTripsIff`,
  `LineFeedAndNullAreLost`), and a value cut into chunks is exactly when each chunk is
  (`ChunksRoundTripIff`).
* `apply-board.ts` calls its absence counts idempotent against a replayed snapshot. Absorbing the
  whole of a complete result of an enabled source again changes nothing, whatever the store,
  exactly when the result gives no canonical key two contents (`ReplayIsIdempotentIff`);
  `ContradictionsAreRewritten` gives a store where it does.
* `normalizeQuestionKey` calls its result stable; it is, unless truncation cuts at an underscore
  (`KeyIsStableUnlessCutAtUnderscore`, `CutAtUnderscoreIsUnstable`).
* A form's fingerprint says which text each option list joins to, not which list
  (`ParsedFormsCompareByText`): two pages of different shape can share one
  (`SeparatorInOptionIsAmbiguous`). A text stands for more than one list exactly when the list
  has several options, or one that reads as two around a `|` (`AmbiguousIff`); without `|` in any
  option, text and shape agree (`ParsedFormsCompareByShape`).
* Of several file controls the extension offers the CV to the first and reports nothing about
  the others (`SecondFileControlIsLost`); a page is accounted for exactly when at most one would
  take the CV (`PageIsAccountedForIff`).

## Model

| member | source | states |
|---|---|---|
| ApplicationMachine.ApplicationRows.TransitionApplication | apps/api/src/applications/service.ts:377-429 | moves the row exactly when every hop leads on from the status read and the revision read still stands: the path's last status, one revision more, the columns it was given, one event numbered past all others; a refusal writes nothing |
| ApplicationMachine.ApplicationRows.AppendApplicationEvent | apps/api/src/applications/service.ts:333-358 | appends one event numbered one past the highest sequence |
| ApplicationMachine.AllowedIff | packages/contracts/src/schemas/applications.ts:139-183 | the machine read backwards: from which statuses each status may be entered |
| ApplicationMachine.TransitionIs | apps/api/src/applications/service.ts:377-429 | what a transition commits, column by column, and exactly when |
| ApplicationMachine.ReplayIsAChain | apps/api/src/applications/service.ts:320-358 | a log that replays has sequences 1 to n, each move starting where the last ended, and the replayed revision is one more than the number of moves |
| ApplicationCommits.FreshMeansDescribed | apps/api/src/applications/service.ts:284-303 | nothing is stale exactly when the snapshot describes the live profile, job, CV and destination and no approval has run out; only the clock is stale exactly when just the approval has |
| ApplicationCommits.FingerprintWithdrawsNothing | apps/api/src/applications/fill.ts:121-129 | a packet with another form fingerprint has another hash, but is as stale, as fillable and as soon withdrawn as before, and a report that adds no packet leaves every packet alone whatever form it saw |
| ApplicationCommits.ExpiryIsBounded | apps/api/src/applications/service.ts:306-309 | an approval lasts at least an hour and at most 24, and the user's setting in between |
| ApplicationRuns.CommitFollows | apps/api/src/applications/service.ts:377-429 | whatever its handler read, a committed step adds to the log, the packets, the sessions and the revocations, never rewrites them, and moves the row at most once |
| ApplicationRuns.RunIsLater | apps/api/src/applications/service.ts:397-414 | in every run an equal revision means an equal row and equal packets, packets change in nothing but their approval, and an ended session never changes |
| ApplicationRuns.ReadIsCurrent | apps/api/src/applications/service.ts:406-414 | a row read at any time whose revision still stands is the current row, and a packet read after it is the current packet |
| ApplicationInvariant.MoveKeepsHistory | apps/api/src/applications/service.ts:377-429 | a move keeps the log replaying to the row and changes the approval in force only as the event says |
| ApplicationInvariant.CreatePacketKeeps | apps/api/src/routes/applications.ts:284-423 | a new packet is hashed over its own content, becomes current and leaves no approval in force |
| ApplicationInvariant.ApproveKeeps | apps/api/src/routes/applications.ts:440-526 | an approval carries the packet's own hash and a bounded expiry and is the one the log says is in force |
| ApplicationInvariant.ReconcileKeeps | apps/api/src/applications/service.ts:560-599 | withdrawing a stale approval leaves none in force and none on the packet |
| ApplicationInvariant.RunnerRevisionKeeps | apps/api/src/applications/fill.ts:176-239 | the packet a runner's questions produce is hashed over its own merged content and has no approval, and neither has the one it supersedes |
| ApplicationInvariant.RecordOutcomeKeeps | apps/api/src/routes/applications.ts:542-623 | recording an outcome keeps evidence and time to submissions, and a time on every submission |
| ApplicationInvariant.ApplyObservationKeeps | apps/api/src/applications/observe.ts:83-164 | an observation keeps the evidence coherent with the log |
| ApplicationInvariant.CreateSessionKeeps | apps/api/src/routes/fill-sessions.ts:318-409 | opening a session keeps at most one open, bound to its packet's hash and origin |
| ApplicationSafety.RunKeepsInvariant | apps/api/src/applications/service.ts:312-429 | the invariant (replaying log, newest packet current, own hashes, approval on record, coherent evidence, one open session, proper events) holds in every world of every run |
| ApplicationSafety.MovesAreValidAtCommit | apps/api/src/applications/service.ts:377-429 | under any interleaving the status a handler checked is the status at commit, every hop is allowed, the revision rises by one and one event records it |
| ApplicationSafety.OneMovePerRevision | apps/api/src/applications/service.ts:397-414 | two steps that both moved the application spent different revisions: of two holders of one revision at most one commits |
| ApplicationSafety.HistoryReplays | apps/api/src/applications/service.ts:320-429 | in every world of every run sequences are 1 to n, moves chain, the last one is the stored status, and the revision is one more than the number of moves |
| ApplicationGuarantees.StoredHashesBindContent | apps/api/src/applications/service.ts:221-246 | any two packets ever stored, by either writer, share a content hash exactly when they have the same snapshot and the same answer and provenance under every key |
| ApplicationGuarantees.FillGate | apps/api/src/applications/fillable.ts:96-136 | every entry into filling, in every run: an approved row, the newest packet, every required question answered, a snapshot that describes the profile, job, CV and destination the handler read as live, and a user's approval of that packet by its exact hash, still standing, unexpired and less than 24 hours old |
| ApplicationGuarantees.FillEntry | apps/api/src/routes/fill.ts:75-140 | only the two fill requests enter filling, and only on an approved row with every required question answered, a described snapshot and an unexpired approval; a session also quotes the packet's hash from its own origin, on a device paired for that origin or for none in particular |
| ApplicationGuarantees.GrantIsWhatWasApproved | apps/api/src/routes/fill-sessions.ts:318-409 | every session opened in a run names a packet whose approval by the quoted hash was standing, and for the rest of the run grants under each key exactly the answer of whatever content the user read under that hash |
| ApplicationGuarantees.ApprovalInForceWasGiven | apps/api/src/routes/applications.ts:440-526 | an approval in force was given in this run, by a user, to the packet that is current, and nothing since has withdrawn or superseded it |
| ApplicationGuarantees.UnknownNeedsTheUserThenApproval | apps/api/src/applications/fillable.ts:99-113 | after an unknown outcome the next fill comes only after the user recorded an outcome and then approved again |
| ApplicationGuarantees.OnlyTheUserMovesASubmission | apps/api/src/applications/observe.ts:53-62 | at or past submission only an outcome the user records moves the application |
| ApplicationEffects.CreatedPacketAsks | apps/api/src/routes/applications.ts:284-423 | a new packet holds what was sent, unapproved, and asks for input exactly when a required question has no answer |
| ApplicationEffects.CreatePacketCommitsIff | apps/api/src/routes/applications.ts:284-423 | on a current read a packet with distinct questions is accepted exactly until the application is submitted, awaits the person or is cancelled |
| ApplicationEffects.ApprovalStamps | apps/api/src/routes/applications.ts:440-526 | an approval moves an application under review to approved and stamps only the newest packet, with its own hash, for the hours the user set within one and 24 |
| ApplicationEffects.ApproveCommitsIff | apps/api/src/routes/applications.ts:440-526 | on current reads it is accepted exactly under review, for the packet's own hash, with every required question answered and the world as the snapshot says |
| ApplicationEffects.ReconcileGoesBack | apps/api/src/applications/service.ts:567-599 | a stale approval is withdrawn from the newest packet alone; the application returns to review where the snapshot still describes the world, and to preparation otherwise, with the event that says which |
| ApplicationEffects.ReconcileCommitsIff | apps/api/src/applications/service.ts:567-599 | on a current read an approval is withdrawn exactly when its row is approved and it has run out or the snapshot no longer describes the world |
| ApplicationEffects.RequestFillCommitsIff | apps/api/src/routes/fill.ts:75-140 | on current reads a fill is accepted exactly when the gate is open |
| ApplicationEffects.SessionOpensForItsDevice | apps/api/src/routes/fill-sessions.ts:318-409 | a session is given only for an origin its device was paired for, for the newest packet and its hash, for ten minutes; every session found open had run out and is ended |
| ApplicationEffects.UnpairedOriginIsRefused | apps/api/src/routes/fill.ts:61-73 | asked for from an origin outside a list the device was paired for, a session is refused |
| ApplicationEffects.CreateSessionCommitsIff | apps/api/src/routes/fill-sessions.ts:318-409 | on current reads a session opens exactly when the gate is open, the device is not revoked and no unexpired session is open |
| ApplicationEffects.ReportMoves | apps/api/src/routes/fill-sessions.ts:527-597 | a session's report moves the application to the status of its outcome and leaves the packets |
| ApplicationEffects.ReportCommitsIff | apps/api/src/routes/fill-sessions.ts:527-597 | on current reads a session reports exactly while it is open and unexpired, its device not revoked, from its own origin, and the machine lets the outcome follow |
| ApplicationEffects.ResultMoves | apps/api/src/applications/fill.ts:46-50 | a runner's result moves the application to the status of its outcome, for a packet that existed when the fill was read |
| ApplicationEffects.FailureIsNoted | apps/api/src/applications/fill.ts:259-290 | a failed fill fails an application that was read as filling and is only noted of any other |
| ApplicationEffects.RevocationReaches | apps/api/src/routes/devices.ts:181-218 | a revocation is recorded and ends exactly the open sessions of its device, and nothing else changes |
| ApplicationEffects.SessionsEnd | apps/api/src/routes/fill-sessions.ts:600-650 | a device ends its own open session and no other; the sweep ends exactly the open sessions that have run out |
| ApplicationEffects.LooksOnlyWhereItFilled | apps/api/src/routes/fill-sessions.ts:656-767 | the browser that reported a fill looks for a confirmation only on the packet's origin, while paired for it, and while the application awaits the person |
| ApplicationEffects.ObserveCommitsIff | apps/api/src/routes/fill-sessions.ts:656-767 | on current reads a look is recorded exactly for a session that reported, while the application awaits the person over its packet, on the packet's origin, by a device paired for it, when what it says hangs together |
| ApplicationEffects.RequestedLookWaits | apps/api/src/routes/observe.ts:50-110 | asking for a look leaves the application waiting for the person and records that it was asked |
| ApplicationEffects.RequestObservationCommitsIff | apps/api/src/routes/observe.ts:50-110 | on a current read, and with a runner free to look, it is possible exactly while the application awaits the person |
| ApplicationEffects.OutcomeMoves | apps/api/src/routes/applications.ts:542-623 | a recorded outcome moves the application to its status; time and evidence are cleared where nothing was submitted, and are else the stored time and what the person now says |
| ApplicationEffects.RecordOutcomeCommitsIff | apps/api/src/routes/applications.ts:542-623 | on a current read an outcome is recorded exactly when its status may follow and it claims no more than a person can |
| ApplicationSettlement.SubmissionTimeIsKept | apps/api/src/routes/applications.ts:581-589 | a submission time changes only when the user records the submission again, or says there was none, which clears time and evidence and returns to preparing |
| ApplicationSettlement.ObservedEvidenceWasObserved | apps/api/src/applications/observe.ts:83-164 | evidence marked adapter_observed comes from a coherent observation made while the application awaited the person, and is that observation's own, unchanged since |
| ApplicationSettlement.EvidenceIsOfASubmission | apps/api/src/routes/applications.ts:581-592 | evidence and a time exist only at or past submission, and every submission whose outcome is known has a time |
| ApplicationSettlement.ObservationMovesOnlyTheWaiting | apps/api/src/applications/observe.ts:108-164 | an observation moves the application exactly when its reader saw it awaiting the person and it still was, to submitted exactly for a coherent confirmation |
| ApplicationSettlement.UserSubmissionIsAReport | apps/api/src/routes/applications.ts:547-592 | a submission the user records is stored as their own report, at the time they gave or now, and only from where a person may have submitted |
| ApplicationSettlement.OneOpenSession | apps/api/src/routes/fill-sessions.ts:359-395 | at most one session of an application is open, and each is bound to its packet's hash and origin |
| ApplicationSettlement.ReportEndsItsSession | apps/api/src/routes/fill-sessions.ts:527-597 | a report is accepted only from an open, unexpired session and its own origin, and ends it |
| ApplicationSettlement.OneReportPerSession | apps/api/src/routes/fill-sessions.ts:552-563 | two accepted reports are of different sessions |
| ApplicationSettlement.RevokedIsRefused | apps/api/src/devices/service.ts:118-133 | once a device is revoked, every step that later authenticates as it is refused, in every continuation |
| ApplicationSettlement.RevocationEndsItsSessions | apps/api/src/routes/devices.ts:208-218 | no session of a revoked device reports afterwards, even through a handler that had authenticated before |
| ApplicationSettlement.RunnerReplacesOnlyItsOwn | apps/api/src/applications/fill.ts:166-239 | a runner's report leaves the packets alone or revises the very packet it filled, then still the newest; every answer is kept and no approval survives |
| ApplicationSettlement.ApprovedMeansReadIff | apps/api/src/applications/fillable.ts:15-18 | every approved world of a run names an approved packet exactly when no unsupported-page report landed on a packet awaiting review |
| ApplicationWitnesses.UnsupportedReportApprovesUnread | apps/api/src/applications/fill.ts:46-50 | a run of create, approve, request fill, create again while filling, and the unsupported-page report for the first packet, after which the second packet is approved and nobody approved it |
| ApplicationWitnesses.RevocationDoesNotStopAnOpeningInFlight | apps/api/src/routes/fill-sessions.ts:318-409 | a run in which a session opens for a device after it was revoked |
| ApplicationHandlers.CreateApplicationPacket | apps/api/src/routes/applications.ts:284-423 | commits a packet exactly when the answers are backed and the move is allowed, and otherwise changes nothing |
| ApplicationHandlers.ApproveApplication | apps/api/src/routes/applications.ts:440-526 | stamps the approval and moves the row together, or changes nothing |
| ApplicationHandlers.ReconcileApplication | apps/api/src/applications/service.ts:560-599 | withdraws a stale approval and moves the row together, to review exactly when the snapshot still describes the world and to preparation otherwise, or changes nothing |
| ApplicationHandlers.FillApplication | apps/api/src/routes/fill.ts:75-140 | moves to filling only an approved row whose packet answers every required question, describes what was read as live and carries an unexpired approval; commits what the specification says or nothing |
| ApplicationHandlers.EndExpiredSessions | apps/api/src/routes/fill-sessions.ts:359-368 | ends exactly the open sessions that have run out |
| ApplicationHandlers.CreateFillSession | apps/api/src/routes/fill-sessions.ts:318-409 | ends expired sessions, opens one and moves to filling together, for a device paired for the tab's origin or for none in particular and past every refusal, or changes nothing |
| ApplicationHandlers.ReportFillSession | apps/api/src/routes/fill-sessions.ts:527-597 | ends an open, unexpired session and moves the application to the status of its outcome together, or changes nothing |
| ApplicationHandlers.ApplyFillLocalResult | apps/api/src/applications/fill.ts:108-239 | the runner's result, with the discovered packet where one is due, or nothing |
| ApplicationHandlers.ApplyFillLocalFailure | apps/api/src/applications/fill.ts:259-290 | the row moves, to failed, only if it was read as filling; otherwise the failure is only noted |
| ApplicationHandlers.ObserveApplication | apps/api/src/applications/observe.ts:83-164 | one move, to submitted exactly for a coherent confirmation and to an unknown outcome with the evidence untouched otherwise; an observation that came too late leaves the row alone |
| ApplicationHandlers.RecordApplicationOutcome | apps/api/src/routes/applications.ts:542-623 | one move or nothing, after which evidence and time are there only at or past submission, are there for a recorded submission, and are never an adapter's |
| ApplicationHandlers.RevokePairedDevice | apps/api/src/routes/devices.ts:181-218 | revokes the device and ends exactly its open sessions |
| Packets.HashBindsContent | apps/api/src/applications/service.ts:221-246 | two contents have one hash exactly when their snapshots are equal and they give every key the same answer from the same kind of source, in whatever order |
| Packets.GrantIsTheAnswers | apps/api/src/applications/fillable.ts:144-158 | a client may type a value under a key exactly when the packet answers the key with it |
| Packets.GrantCarriesApprovedAnswers | apps/api/src/routes/fill-sessions.ts:335-339 | a grant for a quoted hash carries exactly the answers approved under that hash |
| Packets.NothingUnresolved | apps/api/src/applications/service.ts:252-256 | no key is unresolved exactly when every required answer has a value |
| Packets.MergeDiscoveredQuestions | apps/api/src/applications/fill.ts:75-99 | the loop over the page's fields computes the merge of its specification |
| Packets.MergeMeetsItsPromise | apps/api/src/applications/fill.ts:75-99 | merged keys are unique and cover both inputs, an existing answer keeps everything but may become required, and each new question is one blank of the page's first field under that key |
| Packets.MergeIsLossless | apps/api/src/applications/fill.ts:66-99 | merging neither loses nor makes up a value, and a required question the packet did not have leaves the packet unresolved |
| PacketAnswers.AssertPacketAnswers | apps/api/src/applications/answers.ts:93-224 | accepts exactly lists that answer each question once, each reused value backed by a confirmed, current, in-scope row for that question; a refusal names an answer with that fault |
| FormShape.KeyIsWellFormed | packages/fill-planner/src/forms.ts:149-172 | a key is lower-case letters, digits and single inner underscores, at most the contract's length |
| FormShape.KeyIsItsWords | packages/fill-planner/src/forms.ts:149-172 | a key is the words of its label, lower-cased, with one underscore between two, cut to 120 characters |
| FormShape.KeyIsStableUnlessCutAtUnderscore | packages/fill-planner/src/forms.ts:163-172 | normalising a key again changes it exactly when truncation left a trailing underscore |
| FormShape.CutAtUnderscoreIsUnstable | packages/fill-planner/src/forms.ts:163-172 | a label of 119 letters, an underscore and a letter has a key that is not its own key |
| FormShape.ParseOptions | packages/fill-planner/src/inspect.ts:78-125 | keeps the options with a label, each with its own value |
| FormShape.KindIs | packages/fill-planner/src/inspect.ts:23-46 | which input types each kind of control stands for |
| FormShape.ParseFields | packages/fill-planner/src/inspect.ts:78-125 | the loop over rows computes the fields of its specification |
| FormShape.FirstRowKeepsTheKey | packages/fill-planner/src/inspect.ts:78-125 | each row becomes one field with its label, place, required-ness and options; it keeps its key and kind exactly when no earlier row asks the same question, and is otherwise unnamed and unsupported |
| FormShape.ParsedNamesAreUnique | packages/fill-planner/src/inspect.ts:78-125 | no two fields of a parsed page share a key that is not empty |
| FormFingerprint.LineIsControl | packages/fill-planner/src/forms.ts:239-249 | two fields have one line exactly when they have the same key, kind, required flag and options as a multiset |
| FormFingerprint.KindNameIsItsType | packages/fill-planner/src/forms.ts:239-249 | a kind is named in the fingerprint as the input type that stands for it |
| FormFingerprint.MaterialEqualityIsTextEquality | packages/fill-planner/src/forms.ts:222-249 | whatever the options hold but line feeds, two forms have one fingerprint text exactly when they agree, by name and in page order, once each option list is replaced by its sorted joined text |
| FormFingerprint.MaterialEqualityIsShapeEquality | packages/fill-planner/src/forms.ts:222-249 | two plain forms have one fingerprint text exactly when their named fields agree as a map and their unnamed ones in page order |
| FormFingerprint.ParsedFormsCompareByShape | packages/fill-planner/src/forms.ts:239-249 | so it is for whatever two pages parse to, when no option holds a separator |
| FormFingerprint.ParsedFormsCompareByText | packages/fill-planner/src/forms.ts:239-249 | the same for whatever two pages parse to |
| FormFingerprint.AmbiguousIff | packages/fill-planner/src/forms.ts:239-249 | another option list has this list's text exactly when the list has several options, or has one that splits at a separator into two non-empty parts in order |
| FormFingerprint.SeparatorInOptionIsAmbiguous | packages/fill-planner/src/forms.ts:239-249 | one page that offers a single option, two letters around the separator, and one that offers the two letters parse to forms of different shape with one text |
| FillPlan.ClassificationOnlyNarrows | packages/fill-planner/src/forms.ts:174-184 | more words on a label never make a question more reusable |
| FillPlan.SensitivityIs | packages/fill-planner/src/forms.ts:99-184 | a label is never reused exactly when it speaks of demographics, health, identity or assessments, and is sensitive exactly when it is not and speaks of contact, pay or terms |
| FillPlan.MatchOption | packages/fill-planner/src/plan.ts:96-102 | the first option equal to the value up to case and surrounding space, and none exactly when no option is |
| FillPlan.BuildPlan | packages/fill-planner/src/plan.ts:123-210 | the loop over fields computes the plan of its specification: each field filled or asked, and every planned value warranted |
| FillPlan.PlanConservesFields | packages/fill-planner/src/plan.ts:123-210 | filled and asked fields are the page's fields, each once and in order; every planned value is what the packet's last answer of its key says (yes or no, the number, the words, each item) or the CV, none of them never-reusable; every question is its own field's, for a reason that holds of it |
| FillPlan.AskedIff | packages/fill-planner/src/plan.ts:123-210 | a control becomes a question for a reason exactly when that reason is the first that holds of it |
| FillPlan.ChoiceFilledIffExactMapping | packages/fill-planner/src/plan.ts:76-210 | a choice is filled exactly when the packet answers it, it may be answered from a packet, and every item is an offered option |
| FillPlan.TextFilledIff | packages/fill-planner/src/plan.ts:123-210 | a text control is filled exactly when the packet answers it with words that are not blank and it may be answered from a packet |
| FillPlan.PauseIffRequiredLeft | packages/fill-planner/src/plan.ts:59-61 | a plan pauses exactly when a required control is left unfilled |
| FillPlan.EachAnswerTypedOnce | packages/fill-planner/src/plan.ts:123-210 | on a parsed page no packet answer is typed into two controls |
| ExtensionSession.TypesOnlyWhatWasGranted | apps/extension/src/session.ts:89-156 | nothing is typed off the granted origin or on a page that does not say it is the granted job, and each instruction puts warranted words in one of the page's own controls |
| ExtensionSession.FillsOnlyItsOwnPage | apps/extension/src/session.ts:89-156 | a page is filled exactly when the tab is on the granted origin, the page names a company or a title, each one it names being the granted one, and has a control; any other is reported as unsupported |
| ExtensionSession.AttachmentIsFirstFile | apps/extension/src/session.ts:137-172 | the CV is offered to the first named file control, exactly when there is one and the grant has a CV |
| ExtensionSession.PageIsAccountedForIff | apps/extension/src/session.ts:137-172 | every control is typed into, offered the CV or reported exactly when at most one file control would take the CV |
| ExtensionSession.SecondFileControlIsLost | apps/extension/src/session.ts:137-172 | a page with two required file controls is reported as ready to submit, with the CV offered to the first and nothing said of the second |
| ExtensionSession.ReportPausesIff | apps/extension/src/session.ts:160-215 | the report asks for input exactly when a required control is left, or the CV of a required one was blocked, and the blocked control is reported |
| JobStore.LinkedOnlyByIdentity | apps/api/src/discovery/jobs.ts:104-205 | a posting is linked to an existing job only by source key, canonical key, destination or requisition |
| JobStore.LinkIsFirstOfFour | apps/api/src/discovery/jobs.ts:104-205 | a posting is new exactly when no row has its source key, no job its canonical key, no row its destination and, for boards, no row its connector and external id; otherwise it goes where the first of the four that holds leads, by the oldest row |
| JobStore.CanonicalKeysAgreeIff | apps/api/src/discovery/connectors.ts:143-154 | two postings share a canonical key exactly when they are one listing: of one board by external id, off the boards by page, and without a page by content |
| JobStore.UpsertKeepsValid | apps/api/src/discovery/jobs.ts:251-351 | canonical keys and source keys stay unique and every row belongs to a job |
| JobStore.UpsertKeeps | apps/api/src/discovery/jobs.ts:251-351 | a row never moves to another job; what the user corrected or closed, and how recently a job was seen, survive; content and revision move only under the posting's own canonical key |
| JobStore.PostingIsReflected | apps/api/src/discovery/jobs.ts:227-351 | a written posting has one fresh row that says what it says, on a job open unless the user closed it; content moves, by one revision, only where its key owns the job, but for corrections; no other row or job is touched |
| JobStore.JobTables.FindExistingJob | apps/api/src/discovery/jobs.ts:104-205 | finds a job exactly when one of the four rules holds, by the first that does |
| JobStore.JobTables.UpsertNormalizedJob | apps/api/src/discovery/jobs.ts:251-351 | the upsert of its specification, and an outcome that says which job it went to, whether that is new, rewritten or reopened, and by which rule it was found |
| JobStore.UserClosureStandsIff | apps/api/src/routes/jobs.ts:369-383 | a user's closure survives the posting's return exactly when the job was not already closed by something else |
| DiscoveryRuns.ListedThenLostCloses | apps/api/src/discovery/apply-board.ts:94-179 | a run that lists a posting and then, in two complete snapshots a day apart, does not, ends with its job closed by the snapshots |
| DiscoveryRuns.ClosureOfALostJobIsUndone | apps/api/src/routes/jobs.ts:369-383 | after any run that leaves a job closed without the user, the user's closure is undone when its posting is listed again |
| JobStore.CorrectionsSurvive | apps/api/src/routes/jobs.ts:369-388 | a corrected title or company survives the next fetch; an uncorrected one follows the source |
| DiscoveryRuns.EditClaimsOnlyWhatChanges | apps/api/src/routes/jobs.ts:370-390 | after any run an edit touches one job, closes it only if it is not closed, and claims as the user's only words that change something |
| BoardAbsorption.DenialSeenIff | apps/api/src/discovery/apply-board.ts:50-77 | a refusal is seen exactly when a warning, the HTTP status or a blocked state says so |
| BoardAbsorption.CountAbsences | apps/api/src/discovery/apply-board.ts:94-124 | counts the snapshot against exactly the unlisted rows of the source it is newer than, and names their jobs once each |
| BoardAbsorption.CloseIfGone | apps/api/src/discovery/apply-board.ts:137-179 | closes an active job exactly when an enabled board had it and every enabled board that did has lost it for two snapshots 24 hours apart; boards that are off do not count |
| BoardAbsorption.ApplyAbsences | apps/api/src/discovery/apply-board.ts:94-130 | counts absences, then closes exactly the affected jobs that are gone, and counts the closures |
| BoardAbsorption.SnapshotClosesExactly | apps/api/src/discovery/apply-board.ts:94-179 | each row counts a snapshot exactly when its board took it, later than the last, without listing it; exactly the active jobs so counted whose enabled boards have all lost them are closed, whatever other boards hold |
| BoardAbsorption.DedupeBySourceKey | apps/api/src/discovery/apply-board.ts:80-84 | one posting per source key, the last one, where the first stood |
| BoardAbsorption.ApplyFetchBoardResult | apps/api/src/discovery/apply-board.ts:181-241 | writes every distinct posting, applies absences only for a complete unrefused result; its counts account for each posting, each new job, each revision written and each closure |
| DiscoveryRuns.CountersAgreeWithTheLog | apps/api/src/discovery/apply-board.ts:94-124 | over every run each row's counters are what the log of sightings and complete snapshots says of it |
| DiscoveryRuns.ClosureIsSound | apps/api/src/discovery/apply-board.ts:94-179 | whenever a step of a run closes an active job without the user, it is a complete unrefused snapshot, an enabled board had the job, and for every such board the log holds at least two complete snapshots since the last sighting, at increasing times at least 24 hours apart, that do not list it |
| DiscoveryRuns.SecondAbsenceClosesIff | apps/api/src/discovery/apply-board.ts:9-22 | a job that one enabled board had stays open after the first complete snapshot without it and closes at the second exactly when that is at least 24 hours later, whatever boards that are off hold of it |
| DiscoveryGuarantees.ScanClosesExactly | apps/api/src/discovery/apply-board.ts:181-241 | from the fetch result to the closures: which rows a complete scan counts, and exactly which active jobs it closes |
| DiscoveryRuns.IncompleteScansProveNothing | apps/api/src/discovery/apply-board.ts:181-295 | failed, partial and refused scans close nothing and leave every unlisted row as it was |
| DiscoveryGuarantees.DiscoveryKeepsIdentity | apps/api/src/discovery/jobs.ts:251-351 | on every run each step keeps rows on their jobs, keys unique, corrections and user closures, and moves content only under a canonical key it wrote |
| DiscoveryGuarantees.RunsLast | apps/api/src/discovery/jobs.ts:251-351 | in every continuation keys and rows stay, a job is never seen less recently, and what the user closed stays closed |
| DiscoveryGuarantees.SnapshotReplayChangesNothing | apps/api/src/discovery/apply-board.ts:181-223 | applying a complete snapshot of an enabled source a second time changes nothing at all, provided it does not contradict itself under a canonical key |
| DiscoveryGuarantees.ContradictionsAreRewritten | apps/api/src/discovery/jobs.ts:283-318 | for every complete result that gives a canonical key two contents there is a store with unique keys on which replaying it changes the store again |
| DiscoveryGuarantees.ReplayIsIdempotentIff | apps/api/src/discovery/apply-board.ts:181-223 | a complete result of an enabled source is idempotent on every store exactly when it gives no canonical key two contents |
| SourceHealth.IntervalIsAFloor | apps/api/src/discovery/scans.ts:38-47 | the next scan is due no sooner than the interval and at most half an hour later |
| SourceHealth.HealthAgreesWithHistory | apps/api/src/discovery/sources.ts:91-170 | over every run the counters are the longest runs of refusals and of failures that the reports since switch-on end with, the health is what the last report says and blocked exactly from the third refusal, at most one scan is in flight and none while blocked, and next_scan_after is the latest deadline in force |
| SourceHealth.BlockedUntilSwitchedOn | apps/api/src/discovery/sources.ts:47-49 | a blocked source starts nothing and stays blocked until it is switched on |
| SourceHealth.DueIff | apps/api/src/discovery/scan-scheduler.ts:36-42 | a source is due exactly when it is scannable and every deadline in force has passed |
| SourceHealth.ScheduledScansAreSpaced | apps/api/src/discovery/scan-scheduler.ts:44-114 | whichever replica starts it, a scheduled scan starts at least the interval after the previous start and after any Retry-After since, unless the source was switched on in between |
| SourceHealth.ScheduleStartsIff | apps/api/src/discovery/scans.ts:82-166 | a scheduled scan starts exactly when the source is scannable, nothing is in flight and no deadline in force lies ahead |
| SourceHealth.ScanNowStartsIff | apps/api/src/discovery/scans.ts:82-166 | a manual scan starts exactly when the source is on, not blocked and free; a scan that starts is queued with its deadline, and a refused one leaves everything as it was |
| SourceHealth.ScansAdvance | apps/api/src/discovery/scans.ts:120-166 | a scan is leased while it waits and ended while it waits or runs, never goes back, and no step touches another scan |
| SourceHealth.SwitchingOnForgetsTheInterval | apps/api/src/routes/sources.ts:92-125 | after a switch-on a scan may follow the last one at once |
| SourceHealth.ManualScanForgetsRetryAfter | apps/api/src/discovery/scans.ts:82-166 | after a manual scan the scheduler starts one before the time a refusal had asked for |
| SourceHealth.SourceTable.ScheduleDueScans | apps/api/src/discovery/scan-scheduler.ts:44-114 | every candidate ends in exactly one list; exactly the due, free candidates are queued, and only they change |
| ModelOrder.ModelBuilder.EnsureModel | packages/contracts/scripts/generate.ts:887-911 | terminates on any graph, registers each model once, and after everything it needs unless the models reached hold a cycle |
| ModelOrder.EmitModels | packages/contracts/scripts/generate.ts:1066-1083 | throws exactly when the models hold a cycle of different models; otherwise emits a permutation with dependencies first, and takes the first pending model every time when the order already has them first |
| ModelOrder.BuildPython | packages/contracts/scripts/generate.ts:868-1083 | the walk and the emission together: throws exactly when the models reached hold a cycle of different models, and otherwise emits the walk's own numbering, dependencies first |
| ModelOrder.OrderedMeansNoKnot | packages/contracts/scripts/generate.ts:1066-1083 | an order with dependencies first leaves no cycle among its models |
| RawLiterals.CountTrailingBackslashes | packages/contracts/scripts/generate.ts:719-724 | counts the backslashes a value ends with: as many, and no more |
| RawLiterals.SplitRawChunks | packages/contracts/scripts/generate.ts:726-736 | ends; chunks are not empty, within budget and join to the value; one that ends inside an escape is a single backslash, and one before the last is full or stops one short of an escape |
| RawLiterals.JsonRoundTrips | packages/contracts/scripts/generate.ts:742-747 | any value written as a JSON string is read back by Python |
| RawLiterals.EscapesAreShort | packages/contracts/scripts/generate.ts:742-747 | which characters a JSON string writes as two characters, which as six, and that the others stand for themselves |
| RawLiterals.LiteralRoundTripsIff | packages/contracts/scripts/generate.ts:742-747 | the literal for a value is read back as it exactly when it is a plain literal or the value holds no carriage return, no null and no line feed but after an unpaired backslash; otherwise it is lost |
| RawLiterals.LineFeedAndNullAreLost | packages/contracts/scripts/generate.ts:742-747 | a line feed and a null, each written as a raw literal, are not read back |
| RawLiterals.ChunksRoundTripIff | packages/contracts/scripts/generate.ts:749-754 | adjacent literals are read back as the text they were cut from exactly when each of them is readable, and are lost otherwise |
| RawLiterals.PyRawStringAssignment | packages/contracts/scripts/generate.ts:749-754 | the chunks join to the value, none is over budget, Python reads the value back exactly when every chunk is readable, and every chunk is when the value has no line break and no null |
| ProfilePatch.ProfileTable.ApplyProfilePatch | apps/api/src/profile/service.ts:117-241 | applies a patch exactly when the revision matches and every change is valid, and otherwise writes nothing |
| ProfilePatch.PatchWrites | apps/api/src/profile/service.ts:180-241 | an accepted patch deletes, keeps or rewrites each stored row as its last change says, keeping file and excerpt where the change is silent; adds each new row under an id of its own; and moves confirmed_revision exactly when it names the contact, or a change is or was confirmed |
| ProfilePatch.UnflaggedKeepsConfirmed | apps/api/src/profile/service.ts:177-223 | where the flag is not raised the confirmed facts and contact are what they were, duplicates in the batch included |
| ProfilePatch.ConfirmedRevisionTracks | apps/api/src/profile/service.ts:138-241 | over any run of attempts the confirmed content of now is that of confirmed_revision, and the revision counts the accepted patches |
| ProfilePatch.ConfirmedMovesIff | apps/api/src/profile/service.ts:185-241 | an accepted patch moves what may be used exactly when it changes the contact, adds or deletes a confirmed fact, or its last word on a stored fact says something else than the confirmed words there were |
| ProfilePatch.FlagIsRightIff | apps/api/src/profile/service.ts:10-15 | for an accepted patch the flag is right exactly when the patch moves what may be used, or neither names the contact nor touches a confirmed fact |
| ProfilePatch.SameContactRaisesTheFlag | apps/api/src/profile/service.ts:180-184 | the same contact sent again moves confirmed_revision and nothing else that may be used |
| ProfilePatch.SameFactRaisesTheFlag | apps/api/src/profile/service.ts:10-15 | a confirmed fact sent again word for word moves confirmed_revision and nothing that may be used |
| Devices.DeviceTable.ExchangeDevicePairing | apps/api/src/routes/devices.ts:123-155 | spends a live code for a token on the device that waits for it, and otherwise changes nothing |
| Devices.DeviceTable.RevokeDevice | apps/api/src/routes/devices.ts:181-206 | destroys the credential with the revocation, once |
| Devices.DeviceTable.ResolveDeviceToken | apps/api/src/devices/service.ts:118-133 | resolves to the holder of the token only while it is paired |
| Devices.StatusIs | apps/api/src/devices/service.ts:41-52 | revoked before all else, paired exactly while an unexpired token is held, pending exactly while an unexpired code is |
| Devices.CodeLastsFiveMinutes | apps/api/src/routes/devices.ts:114-155 | a code is exchanged only within five minutes of the pairing that drew it |
| Devices.ResolvedWasIssued | apps/api/src/devices/service.ts:118-133 | a token resolves only within 30 days of the exchange that gave it |
| Devices.OneTokenPerCode | apps/api/src/routes/devices.ts:114-155 | of two exchanges that quote one code at most one succeeds |
| Devices.RevokedNeverResolves | apps/api/src/devices/service.ts:41-52 | in every continuation no token resolves to a revoked device |
| Devices.TokenWasIssued | apps/api/src/routes/devices.ts:123-155 | a device holds only a token some successful exchange gave it, with that exchange's expiry |
| DeviceAuthentication.ResolvedAuthenticates | apps/api/src/devices/service.ts:118-133 | in a world whose revocations are the device table's, whoever a token resolves to passes authentication, and no token resolves to a revoked device |
| DeviceAuthentication.StepsMirror | apps/api/src/routes/devices.ts:181-218 | a revocation adds the device to the table and to the world's revocations alike, and nothing else adds one |
| DeviceAuthentication.RevokedAreThoseRevoked | apps/api/src/routes/devices.ts:123-206 | over every run the devices the table shows as revoked are those some step revoked |
| InsertionMap.CollapsedIsLastOfEach | apps/api/src/discovery/apply-board.ts:79-84 | building a map by key keeps the last value of each key, once |
| InsertionMap.CollapsedKeepsOrder | apps/api/src/discovery/apply-board.ts:79-84 | and keeps the keys in the order they first appear |
| Ordering.SortIsCanonical | packages/fill-planner/src/forms.ts:239-249 | stable sorting by key gives two lists one result exactly when they agree, in order, under every key |

## Left out

- One application at a time: applications share no state but revocations and the sweep of expired sessions, which is a step of its own; the loop of `reconcileApplications` over a page is modelled per application.
- The request-level `expected_revision` checks, idempotency records, nonces, audit events and rendering: they refuse more and write nothing the model reads.
- `applications.observed_form_fingerprint`: it is stored by the runner's result and read by nothing modelled here, as `FingerprintWithdrawsNothing` says of what would read it.
- ApplicationGuarantees.FillGate: the live profile, job, CV and destination are what the handler read, a parameter of the step and not part of a `World`; nothing is said of a change between that read and the commit.
- ApplicationCommits.CreatePacket: refuses only for repeated keys among the rules of `assertPacketAnswers`; the other rules read the answer bank and the profile and are stated by `PacketAnswers.AssertPacketAnswers`, which the handler calls first.
- ApplicationSettlement.RevokedIsRefused: speaks of authentication after the revocation; an opening already past authentication is the witness `RevocationDoesNotStopAnOpeningInFlight`.
- The pairing of a runner, its tasks, leases and file downloads: a runner's report is a step that may come at any time, for any packet, with any result.
- Rows created in one transaction have one creation time and the database may order them either way; the model takes them in the order they were written.
- DiscoveryRuns.ClosureIsSound: times are the ones the results report; "since the last sighting" is in the order results were applied.
- URL parsing, Unicode normalisation and regular expressions: parameters, about which nothing is assumed. JavaScript orders and measures strings by UTF-16 units, Dafny by characters.
- DiscoveryGuarantees.SnapshotReplayChangesNothing: asks that the source be enabled and the result complete; a disabled board does not vote, and an incomplete result counts no absence.
- SourceHealth: `health_detail`, `last_error_*`, ETag and Last-Modified, which decide nothing; a result for a scan that is no longer in flight, which the task queue's lease rules out and whose file is not part of this model.
- ModelOrder: how schema nodes get names and how fields become Python types; a model is its name and the models its fields mention.
- RawLiterals.PyRawStringAssignment: bounds the chunk, not the escaped line.
- ProfilePatch: the import-confirmation path and `syncConfirmedContact`, which write through another route.
- Devices: label, kind, origins and last-seen columns; codes and tokens are strings, and `OneTokenPerCode` asks that pairings draw different codes.
- Fastify wiring, SQL, migrations, cryptography, file storage, the DOM and browser code, the web application, matching, resume rendering and generated OpenAPI text.
