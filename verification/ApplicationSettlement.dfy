/**
  How an application ends, over every run: who may say it was submitted, what evidence is
  kept, what a fill session may report, and what a runner's report may replace.
*/
module ApplicationSettlement {
  import opened Common
  import opened Ordering
  import opened InsertionMap
  import opened FillPlan
  import opened Packets
  import opened ApplicationMachine
  import opened ApplicationCommits
  import opened ApplicationRuns
  import opened ApplicationInvariant
  import opened ApplicationSafety
  import opened ApplicationGuarantees

  // ---------------------------------------------------------------------------
  // Submission time and evidence
  // ---------------------------------------------------------------------------

  /** A step by which a runner or the browser that filled the form says what it saw. */
  predicate Observes(step: Step) {
    step.DoRunnerObservation? || step.DoObserveFromSession?
  }

  /**
    A submission keeps its time: it changes only when the user records the submission itself
    again, or says there was none.
  */
  lemma SubmissionTimeIsKept(digest: Material -> string, run: seq<World>, steps: seq<Step>, k: nat)
    requires IsRun(digest, run, steps) && k < |steps|
    requires run[k].row.submittedAt.Some? && run[k + 1].row.submittedAt != run[k].row.submittedAt
    ensures steps[k].DoRecordOutcome? && steps[k].told in {WasSubmitted, WasNotSubmitted}
    ensures steps[k].told.WasNotSubmitted? ==> run[k + 1].row == Row(
              Preparing, run[k].row.revision + 1, run[k].row.currentPacket, None, None)
  {
    EvidenceIsOfASubmission(digest, run, steps, k);
    OnlyTheUserMovesASubmission(digest, run, steps, k);
    StepCommits(digest, run, steps, k);
    RecordedTime(digest, run[..k + 1], steps[k]);
  }

  lemma RecordedTime(digest: Material -> string, run: seq<World>, step: Step)
    requires UsesCurrentRow(run, step) && step.DoRecordOutcome? && Commit(digest, run, step).Some?
    requires var row := run[|run| - 1].row; row.submittedAt.Some? && AtOrPastSubmission(row.status)
    ensures var row, row' := run[|run| - 1].row, Commit(digest, run, step).value.row;
            row'.submittedAt == row.submittedAt
            || step.told.WasSubmitted?
            || (step.told.WasNotSubmitted? && row' == Row(Preparing, row.revision + 1, row.currentPacket, None, None))
  {
  }

  lemma EvidenceWriters(digest: Material -> string, run: seq<World>, step: Step)
    requires run != [] && Commit(digest, run, step).Some?
    requires Commit(digest, run, step).value.row.evidence != run[|run| - 1].row.evidence
    ensures Observes(step) || step.DoRecordOutcome?
  {
  }

  /** A coherent look that found a confirmation, taken while the application waited for the person. */
  ghost predicate Confirmed(run: seq<World>, steps: seq<Step>, m: nat) {
    && m < |steps| && m + 1 < |run| && Observes(steps[m])
    && run[m].row.status.AwaitingUserSubmit?
    && Coherent(steps[m].observation) && steps[m].observation.observed
    && run[m + 1].row.status.Submitted?
    && run[m + 1].row.submittedAt == Some(steps[m].observation.confirmation.value.observedAt)
    && run[m + 1].row.evidence == Some(Evidence(AdapterObserved,
         Some(steps[m].observation.confirmation.value.observedAt), steps[m].observation.confirmation.value.detail))
  }

  lemma ObservationConfirms(digest: Material -> string, run: seq<World>, steps: seq<Step>, k: nat)
    requires IsRun(digest, run, steps) && k < |steps| && Observes(steps[k])
    requires run[k + 1].row.evidence != run[k].row.evidence
    ensures Confirmed(run, steps, k)
  {
    StepCommits(digest, run, steps, k);
  }

  lemma RecordedIsNotObserved(digest: Material -> string, run: seq<World>, step: Step)
    requires run != [] && step.DoRecordOutcome? && Commit(digest, run, step).Some?
    ensures var evidence := Commit(digest, run, step).value.row.evidence;
            evidence.Some? ==> !evidence.value.kind.AdapterObserved?
  {
  }

  /** A move that leaves evidence marked as observed is the observation itself. */
  lemma ObservedIsUntouched(digest: Material -> string, run: seq<World>, steps: seq<Step>, k: nat)
    requires IsRun(digest, run, steps) && k < |steps| && run[k + 1].row != run[k].row
    requires run[k + 1].row.evidence.Some? && run[k + 1].row.evidence.value.kind.AdapterObserved?
    ensures run[k + 1].row.evidence != run[k].row.evidence && !steps[k].DoRecordOutcome?
  {
    StepCommits(digest, run, steps, k);
    if steps[k].DoRecordOutcome? {
      RecordedIsNotObserved(digest, run[..k + 1], steps[k]);
    }
    if run[k].row.evidence.Some? {
      EvidenceIsOfASubmission(digest, run, steps, k);
      OnlyTheUserMovesASubmission(digest, run, steps, k);
    }
  }

  /**
    Evidence marked as observed comes from a coherent observation made while the application
    waited for the person, and is that observation's own, unchanged since.
  */
  lemma {:induction false} ObservedEvidenceWasObserved(
    digest: Material -> string, run: seq<World>, steps: seq<Step>, k: nat) returns (m: nat)
    requires IsRun(digest, run, steps) && k < |run|
    requires run[k].row.evidence.Some? && run[k].row.evidence.value.kind.AdapterObserved?
    ensures m < k && Confirmed(run, steps, m)
    ensures run[m + 1].row.evidence == run[k].row.evidence && run[m + 1].row.submittedAt == run[k].row.submittedAt
  {
    if k > 0 {
      StepCommits(digest, run, steps, k - 1);
      assert run[..k - 1 + 1] == run[..k];
      if run[k].row == run[k - 1].row {
        m := ObservedEvidenceWasObserved(digest, run, steps, k - 1);
      } else {
        ObservedIsUntouched(digest, run, steps, k - 1);
        EvidenceWriters(digest, run[..k], steps[k - 1]);
        ObservationConfirms(digest, run, steps, k - 1);
        m := k - 1;
      }
    }
  }

  /** Evidence and a time belong to a submission, and every submission has a time. */
  lemma EvidenceIsOfASubmission(digest: Material -> string, run: seq<World>, steps: seq<Step>, k: nat)
    requires IsRun(digest, run, steps) && k < |run|
    ensures run[k].row.evidence.Some? || run[k].row.submittedAt.Some? ==>
              run[k].row.status in {Submitted, OutcomeUnknown, Interview, Rejected, Offer, Withdrawn}
    ensures run[k].row.status in {Submitted, Interview, Rejected, Offer, Withdrawn} ==> run[k].row.submittedAt.Some?
  {
    RunKeepsInvariant(digest, run, steps, k);
  }

  /**
    An observation moves an application exactly when its reader saw it waiting for the person
    and it still was; it never writes over what the user recorded.
  */
  lemma ObservationMovesOnlyTheWaiting(digest: Material -> string, run: seq<World>, steps: seq<Step>, k: nat)
    requires IsRun(digest, run, steps) && k < |steps| && Observes(steps[k])
    ensures run[k + 1].row != run[k].row <==> RowUsed(run[..k + 1], steps[k]).status.AwaitingUserSubmit?
    ensures run[k + 1].row != run[k].row ==> run[k].row.status.AwaitingUserSubmit?
    ensures run[k + 1].row != run[k].row ==>
              run[k + 1].row.status
                == (if && steps[k].observation.observed && steps[k].observation.confirmation.Some?
                       && steps[k].observation.reason.None?
                    then Submitted else OutcomeUnknown)
  {
    StepCommits(digest, run, steps, k);
  }

  /**
    A submission the user records is stored as the user's own report, with their words, at the
    time they gave or else now, and can be recorded only from where the machine lets a person
    have submitted.
  */
  lemma UserSubmissionIsAReport(digest: Material -> string, run: seq<World>, steps: seq<Step>, k: nat)
    requires IsRun(digest, run, steps) && k < |steps| && steps[k].DoRecordOutcome? && steps[k].told.WasSubmitted?
    ensures run[k].row.status in {Draft, NeedsInput, Approved, AwaitingUserSubmit, OutcomeUnknown, Submitted}
    ensures run[k + 1].row.status.Submitted?
    ensures var report := steps[k].report;
            var saw := if report.Some? then report.value.observedAt else None;
            && run[k + 1].row.evidence
                == Some(Evidence(UserReport, saw, if report.Some? then report.value.detail else ""))
            && run[k + 1].row.submittedAt == Some(if saw.Some? then saw.value else steps[k].now)
  {
    StepCommits(digest, run, steps, k);
  }

  // ---------------------------------------------------------------------------
  // Fill sessions
  // ---------------------------------------------------------------------------

  /** In every world at most one session is open, and each is bound to its packet and origin. */
  lemma OneOpenSession(digest: Material -> string, run: seq<World>, steps: seq<Step>, k: nat, s: nat, t: nat)
    requires IsRun(digest, run, steps) && k < |run| && s < t < |run[k].sessions|
    ensures run[k].sessions[s].ended.Some? || run[k].sessions[t].ended.Some?
    ensures SessionOk(run[k].packets, run[k].sessions[s]) && SessionOk(run[k].packets, run[k].sessions[t])
  {
    RunKeepsInvariant(digest, run, steps, k);
  }

  lemma ReportEndsItsSession(digest: Material -> string, run: seq<World>, steps: seq<Step>, k: nat)
    requires IsRun(digest, run, steps) && k < |steps| && steps[k].DoReportSession?
    ensures var s := steps[k].session;
            && s < |run[k].sessions| == |run[k + 1].sessions|
            && run[k].sessions[s].ended.None? && steps[k].now < run[k].sessions[s].expires
            && run[k + 1].sessions[s].ended == Some(Ending(steps[k].now, Reported))
            && (steps[k].pageOrigin.Some? ==> steps[k].pageOrigin.value == run[k].sessions[s].origin)
  {
    StepContext(digest, run, steps, k);
    SessionIsHeld(run[..k + 1], steps[k].auth, steps[k].session);
  }

  /** A session takes one report, before it expires and from its own origin, and none once ended. */
  lemma OneReportPerSession(digest: Material -> string, run: seq<World>, steps: seq<Step>, j: nat, k: nat)
    requires IsRun(digest, run, steps) && j < k < |steps|
    requires steps[j].DoReportSession? && steps[k].DoReportSession?
    ensures steps[j].session != steps[k].session
  {
    ReportEndsItsSession(digest, run, steps, j);
    ReportEndsItsSession(digest, run, steps, k);
    RunIsLater(digest, run, steps, j + 1, k);
  }

  /** The step authenticates as this device, in a world no earlier than `since`. */
  ghost predicate ActsAs(run: seq<World>, step: Step, device: nat, since: nat) {
    match step
    case DoCreateSession(auth, _, _, d, _, _, _, _, _) => since <= auth && d == device
    case DoReportSession(auth, _, session, _, _, _) =>
      since <= auth < |run| && session < |run[auth].sessions| && run[auth].sessions[session].device == device
    case DoEndSession(auth, session, _) =>
      since <= auth < |run| && session < |run[auth].sessions| && run[auth].sessions[session].device == device
    case DoObserveFromSession(auth, session, _, _, _) =>
      since <= auth < |run| && session < |run[auth].sessions| && run[auth].sessions[session].device == device
    case _ => false
  }

  /** Once a device is revoked, whatever later authenticates as it is refused, in every continuation. */
  lemma RevokedIsRefused(
    digest: Material -> string, run: seq<World>, steps: seq<Step>, i: nat, device: nat, step: Step)
    requires IsRun(digest, run, steps) && i < |run| && device in run[i].revoked
    requires ActsAs(run, step, device, i)
    ensures Commit(digest, run, step).None?
  {
    RunIsRecorded(digest, run, steps);
    if step.auth < |run| {
      assert Later(run[i], run[step.auth]);
    }
  }

  /**
    Revoking a device ends its sessions for good: none of them can report, even by a handler
    that had authenticated before the revocation.
  */
  lemma RevocationEndsItsSessions(
    digest: Material -> string, run: seq<World>, steps: seq<Step>, i: nat, k: nat)
    requires IsRun(digest, run, steps) && i < k < |steps| && steps[i].DoRevokeDevice? && steps[k].DoReportSession?
    requires steps[k].session < |run[i].sessions|
    ensures run[i].sessions[steps[k].session].device != steps[i].device
  {
    StepCommits(digest, run, steps, i);
    ReportEndsItsSession(digest, run, steps, k);
    RunIsLater(digest, run, steps, i + 1, k);
  }

  // ---------------------------------------------------------------------------
  // Runner reports
  // ---------------------------------------------------------------------------

  /** The packet a runner's `needs_input` report wrote over the one it was given. */
  ghost predicate Revises(w: World, p: nat, w': World) {
    && |w.packets| == p + 1 && |w'.packets| == p + 2
    && w.row.currentPacket == Some(p) && w'.row.currentPacket == Some(p + 1)
    && w'.row.status.NeedsInput?
    && w'.packets[p].approval.None? && w'.packets[p + 1].approval.None?
    && UnresolvedQuestionKeys(w'.packets[p + 1].answers) != []
    && forall key, value :: Answers(w'.packets[p + 1].answers, key, value) <==> Answers(w.packets[p].answers, key, value)
  }

  /**
    A runner's report either leaves every packet alone or adds a revision of the very packet
    it filled, which was then still the newest; a packet the user made meanwhile is never
    replaced. The revision keeps every answer and has no approval.
  */
  lemma RunnerReplacesOnlyItsOwn(digest: Material -> string, run: seq<World>, steps: seq<Step>, k: nat)
    requires IsRun(digest, run, steps) && k < |steps| && steps[k].DoRunnerResult?
    ensures (run[k + 1].packets == run[k].packets && run[k + 1].row.currentPacket == run[k].row.currentPacket)
            || Revises(run[k], steps[k].p, run[k + 1])
  {
    StepContext(digest, run, steps, k);
    ReadIsCurrent(run[..k + 1], steps[k].row, steps[k].row);
    RunnerRevises(digest, run[k], run[steps[k].first].row, steps[k].p, steps[k].outcome, steps[k].discovered,
      steps[k].fingerprint);
  }

  lemma RunnerRevises(
    digest: Material -> string, w: World, first: Row, p: nat, outcome: FillOutcome,
    discovered: seq<Discovered>, fingerprint: Option<string>)
    requires Inv(digest, w) && p < |w.packets|
    requires RunnerResult(digest, w, first, w.row, p, outcome, discovered, fingerprint).Some?
    ensures var w' := RunnerResult(digest, w, first, w.row, p, outcome, discovered, fingerprint).value;
            (w'.packets == w.packets && w'.row.currentPacket == w.row.currentPacket) || Revises(w, p, w')
  {
    assert PacketOk(digest, w.packets[p]);
    RevisionIsLossless(digest, w, first, p, outcome, discovered, fingerprint);
  }

  lemma RevisionIsLossless(
    digest: Material -> string, w: World, first: Row, p: nat, outcome: FillOutcome,
    discovered: seq<Discovered>, fingerprint: Option<string>)
    requires w.row.currentPacket == Newest(w.packets) && p < |w.packets| && UniqueKeys(w.packets[p].answers, AnswerKey)
    requires RunnerResult(digest, w, first, w.row, p, outcome, discovered, fingerprint).Some?
    ensures var w' := RunnerResult(digest, w, first, w.row, p, outcome, discovered, fingerprint).value;
            (w'.packets == w.packets && w'.row.currentPacket == w.row.currentPacket) || Revises(w, p, w')
  {
    var previous := w.packets[p].answers;
    CollapsedIsIdentity(previous, AnswerKey);
    assert forall key, value :: Answers(Merged(previous, discovered), key, value) <==> Answers(previous, key, value) by {
      MergeMeetsItsPromise(previous, discovered);
      MergeIsLossless(previous, discovered, Merged(previous, discovered));
    }
  }

  // ---------------------------------------------------------------------------
  // Unsupported pages
  // ---------------------------------------------------------------------------

  /** A report that no tested adapter matched, about a packet the user has not approved yet. */
  ghost predicate UnsupportedBeforeReview(run: seq<World>, steps: seq<Step>, k: nat) {
    && k < |steps| && k < |run| && run[k].row.status.ReadyForReview?
    && ReportsUnsupported(steps[k])
  }

  predicate ReportsUnsupported(step: Step) {
    (step.DoRunnerResult? || step.DoReportSession?) && step.outcome.NoAdapter?
  }

  /** How a commit can leave an application approved. */
  ghost predicate ApprovedBy(w: World, step: Step, w': World) {
    || (step.DoApprove? && CurrentApproval(w').Some?)
    || (ReportsUnsupported(step) && w'.packets == w.packets && w.row.status in {Filling, Approved, ReadyForReview})
    || (!ReportsUnsupported(step) && w'.packets == w.packets && w.row.status.Approved?)
  }

  lemma PacketStepApproval(digest: Material -> string, run: seq<World>, step: Step)
    requires UsesCurrentRow(run, step) && Commit(digest, run, step).Some? && WritesPackets(step)
    requires run[|run| - 1].row.currentPacket == Newest(run[|run| - 1].packets)
    requires Commit(digest, run, step).value.row.status.Approved?
    ensures ApprovedBy(run[|run| - 1], step, Commit(digest, run, step).value)
  {
    var w := run[|run| - 1];
    match step
    case DoRunnerResult(first, row, p, outcome, discovered, fingerprint) =>
      RunnerApproval(digest, w, run[first].row, run[row].row, p, outcome, discovered, fingerprint);
    case _ =>
  }

  lemma RunnerApproval(
    digest: Material -> string, w: World, first: Row, read: Row, p: nat, outcome: FillOutcome,
    discovered: seq<Discovered>, fingerprint: Option<string>)
    requires p < |w.packets| && (read.revision == w.row.revision ==> read == w.row)
    requires RunnerResult(digest, w, first, read, p, outcome, discovered, fingerprint).Some?
    requires RunnerResult(digest, w, first, read, p, outcome, discovered, fingerprint).value.row.status.Approved?
    ensures outcome.NoAdapter? && w.row.status in {Filling, Approved, ReadyForReview}
    ensures RunnerResult(digest, w, first, read, p, outcome, discovered, fingerprint).value.packets == w.packets
  {
  }

  lemma OtherStepApproval(digest: Material -> string, run: seq<World>, step: Step)
    requires UsesCurrentRow(run, step) && Commit(digest, run, step).Some? && !WritesPackets(step)
    requires Commit(digest, run, step).value.row.status.Approved?
    ensures ApprovedBy(run[|run| - 1], step, Commit(digest, run, step).value)
  {
  }

  lemma StaysApproved(digest: Material -> string, run: seq<World>, steps: seq<Step>, k: nat)
    requires IsRun(digest, run, steps) && k < |steps| && run[k + 1].row.status.Approved?
    ensures ApprovedBy(run[k], steps[k], run[k + 1])
  {
    StepCommits(digest, run, steps, k);
    if WritesPackets(steps[k]) {
      RunKeepsInvariant(digest, run, steps, k);
      PacketStepApproval(digest, run[..k + 1], steps[k]);
    } else {
      OtherStepApproval(digest, run[..k + 1], steps[k]);
    }
  }

  /** Every world of the run that says `approved` names a packet with an approval. */
  ghost predicate ApprovedMeansRead(run: seq<World>) {
    forall i :: 0 <= i < |run| && run[i].row.status.Approved? ==> CurrentApproval(run[i]).Some?
  }

  lemma ReportLandsApproved(digest: Material -> string, run: seq<World>, steps: seq<Step>, k: nat)
    requires IsRun(digest, run, steps) && UnsupportedBeforeReview(run, steps, k)
    ensures run[k + 1].row.status.Approved? && CurrentApproval(run[k + 1]).None?
  {
    StepCommits(digest, run, steps, k);
    RunKeepsInvariant(digest, run, steps, k);
    UnsupportedApproves(digest, run[..k + 1], steps[k]);
  }

  lemma UnsupportedApproves(digest: Material -> string, run: seq<World>, step: Step)
    requires UsesCurrentRow(run, step) && Commit(digest, run, step).Some? && ReportsUnsupported(step)
    ensures Commit(digest, run, step).value.row.status.Approved?
    ensures Commit(digest, run, step).value.packets == run[|run| - 1].packets
  {
  }

  lemma FillingIsApproved(digest: Material -> string, run: seq<World>, steps: seq<Step>, i: nat)
    requires IsRun(digest, run, steps) && i < |run|
    ensures run[i].row.status.Filling? ==> CurrentApproval(run[i]).Some?
  {
    RunKeepsInvariant(digest, run, steps, i);
  }

  lemma {:induction false} ApprovedIsReadSoFar(digest: Material -> string, run: seq<World>, steps: seq<Step>, i: nat)
    requires IsRun(digest, run, steps) && i < |run|
    requires forall k :: 0 <= k < |steps| ==> !UnsupportedBeforeReview(run, steps, k)
    ensures run[i].row.status.Approved? ==> CurrentApproval(run[i]).Some?
  {
    if i > 0 && run[i].row.status.Approved? {
      ApprovedIsReadSoFar(digest, run, steps, i - 1);
      FillingIsApproved(digest, run, steps, i - 1);
      assert !UnsupportedBeforeReview(run, steps, i - 1);
      StaysApproved(digest, run, steps, i - 1);
    }
  }

  /**
    The status is meant to be the record that a person read the packet. It is, in every world
    of a run, exactly when no report of an unsupported page landed on a packet still waiting
    for review: the machine lets that report make the packet `approved` unread.
  */
  lemma ApprovedMeansReadIff(digest: Material -> string, run: seq<World>, steps: seq<Step>)
    requires IsRun(digest, run, steps)
    ensures ApprovedMeansRead(run) <==> forall k :: 0 <= k < |steps| ==> !UnsupportedBeforeReview(run, steps, k)
  {
    if forall k :: 0 <= k < |steps| ==> !UnsupportedBeforeReview(run, steps, k) {
      forall i | 0 <= i < |run| && run[i].row.status.Approved?
        ensures CurrentApproval(run[i]).Some?
      {
        ApprovedIsReadSoFar(digest, run, steps, i);
      }
    } else {
      var k :| 0 <= k < |steps| && UnsupportedBeforeReview(run, steps, k);
      ReportLandsApproved(digest, run, steps, k);
    }
  }
}
