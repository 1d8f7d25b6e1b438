/**
  The promises the repository makes about an application, each for every step of every run.
*/
module ApplicationGuarantees {
  import opened Common
  import opened Ordering
  import opened InsertionMap
  import opened FillPlan
  import opened Packets
  import opened ApplicationMachine
  import opened ApplicationCommits
  import opened ApplicationRuns
  import opened ApplicationInvariant
  import opened ApplicationSafety

  // ---------------------------------------------------------------------------
  // Content binding
  // ---------------------------------------------------------------------------

  /**
    Whoever wrote them, two stored packets with one content hash would send the same thing:
    same destination, CV bytes, revisions and form, and the same answer from the same kind of
    source under every question key.
  */
  lemma StoredHashesBindContent(
    digest: Material -> string, run: seq<World>, steps: seq<Step>, i: nat, p: nat, j: nat, q: nat)
    requires Injective(digest) && IsRun(digest, run, steps)
    requires i < |run| && p < |run[i].packets| && j < |run| && q < |run[j].packets|
    ensures run[i].packets[p].contentHash == run[j].packets[q].contentHash <==>
            run[i].packets[p].snapshot == run[j].packets[q].snapshot
            && SameAnswers(run[i].packets[p].answers, run[j].packets[q].answers)
  {
    RunKeepsInvariant(digest, run, steps, i);
    RunKeepsInvariant(digest, run, steps, j);
    var a, b := run[i].packets[p], run[j].packets[q];
    HashBindsContent(digest, a.snapshot, a.answers, b.snapshot, b.answers);
  }

  // ---------------------------------------------------------------------------
  // Filling
  // ---------------------------------------------------------------------------

  lemma RunnerNeverStartsFill(
    digest: Material -> string, w: World, first: Row, read: Row, p: nat, outcome: FillOutcome,
    discovered: seq<Discovered>, fingerprint: Option<string>)
    requires p < |w.packets| && RunnerResult(digest, w, first, read, p, outcome, discovered, fingerprint).Some?
    ensures RunnerResult(digest, w, first, read, p, outcome, discovered, fingerprint).value.row.status
         in {AwaitingUserSubmit, NeedsInput, Approved}
  {
  }

  lemma PacketStepsNeverStartFill(digest: Material -> string, run: seq<World>, step: Step)
    requires run != [] && Commit(digest, run, step).Some? && WritesPackets(step)
    ensures !Commit(digest, run, step).value.row.status.Filling?
  {
    match step
    case DoRunnerResult(first, row, p, outcome, discovered, fingerprint) =>
      RunnerNeverStartsFill(
        digest, run[|run| - 1], run[first].row, run[row].row, p, outcome, discovered, fingerprint);
    case _ =>
  }

  lemma OutcomeStepsNeverStartFill(digest: Material -> string, run: seq<World>, step: Step)
    requires run != [] && Commit(digest, run, step).Some? && Settles(step)
    requires !run[|run| - 1].row.status.Filling?
    ensures !Commit(digest, run, step).value.row.status.Filling?
  {
  }

  /** The device may fill this origin: it was paired for it, or for none in particular. */
  ghost predicate PairedFor(declared: seq<string>, origin: string) {
    declared == [] || exists i :: 0 <= i < |declared| && declared[i] == origin
  }

  /** What must be true of the world and the step when an application starts to be filled. */
  ghost predicate MayEnterFilling(w: World, step: Step) {
    && w.row.status.Approved? && w.packets != []
    && (step.DoRequestFill? || step.DoCreateSession?)
    && var packet := w.packets[|w.packets| - 1];
       && (forall a :: a in packet.answers && a.required ==> a.answer.Some?)
       && Describes(packet.snapshot, step.live)
       && packet.approval.Some? && step.now < packet.approval.value.expires
       && (step.DoCreateSession? ==>
             && step.quotedHash == packet.contentHash
             && step.tabOrigin == packet.snapshot.destination.origin
             && PairedFor(step.declared, step.tabOrigin))
  }

  lemma FillStepMayEnter(digest: Material -> string, run: seq<World>, step: Step)
    requires Recorded(run) && Commit(digest, run, step).Some? && (step.DoRequestFill? || step.DoCreateSession?)
    requires run[|run| - 1].row.currentPacket == Newest(run[|run| - 1].packets)
    ensures MayEnterFilling(run[|run| - 1], step)
  {
    var w := run[|run| - 1];
    ReadIsCurrent(run, step.row, step.packet);
    var packet := w.packets[|w.packets| - 1];
    NothingUnresolved(packet.answers);
    FreshMeansDescribed(packet, step.live, step.now);
  }

  lemma FillEntry(digest: Material -> string, run: seq<World>, step: Step)
    requires Recorded(run) && Inv(digest, run[|run| - 1]) && Commit(digest, run, step).Some?
    requires !run[|run| - 1].row.status.Filling? && Commit(digest, run, step).value.row.status.Filling?
    ensures MayEnterFilling(run[|run| - 1], step)
  {
    if WritesPackets(step) {
      PacketStepsNeverStartFill(digest, run, step);
    } else if Settles(step) {
      OutcomeStepsNeverStartFill(digest, run, step);
    } else if step.DoRequestFill? || step.DoCreateSession? {
      FillStepMayEnter(digest, run, step);
    }
  }

  /** The step that appended an event that is not the first. */
  lemma {:induction false} EventHasItsStep(digest: Material -> string, run: seq<World>, steps: seq<Step>, k: nat, i: nat)
    returns (m: nat)
    requires IsRun(digest, run, steps) && k < |run| && 0 < i < |run[k].events|
    ensures m < k && |run[m].events| == i && |run[m + 1].events| == i + 1
    ensures run[m + 1].events[i] == run[k].events[i]
  {
    if k > 0 {
      StepAppends(digest, run, steps, k - 1);
      if i < |run[k - 1].events| {
        m := EventHasItsStep(digest, run, steps, k - 1, i);
      } else {
        m := k - 1;
      }
    }
  }

  /** The event the step appended is the approval of the packet it read. */
  ghost predicate IsApprovalOf(run: seq<World>, step: Step, e: Event)
    requires run != []
  {
    && step.DoApprove? && step.row < |run| && run[step.row].row.currentPacket.Some?
    && e.data == Approving(run[step.row].row.currentPacket.value, step.quotedHash, ApprovalExpiry(step.approvedAt, step.ttl))
  }

  lemma ApprovalHasItsStep(digest: Material -> string, run: seq<World>, step: Step)
    requires run != [] && Commit(digest, run, step).Some?
    requires var w, w' := run[|run| - 1], Commit(digest, run, step).value;
             |w'.events| == |w.events| + 1 && w'.events[|w.events|].kind.PacketApproved?
    ensures IsApprovalOf(run, step, Commit(digest, run, step).value.events[|run[|run| - 1].events|])
  {
    if WritesPackets(step) {
    } else if StartsOrEndsFill(step) {
    } else if Settles(step) {
    }
  }

  /**
    Step `m` is a user's approval of the packet current at world `k`, by its exact content
    hash, and nothing since has withdrawn it, superseded it or moved the application to where
    it would not count.
  */
  ghost predicate ApprovedAndStanding(run: seq<World>, steps: seq<Step>, m: nat, k: nat) {
    && m < k < |run| && m < |steps| && run[k].packets != []
    && steps[m].DoApprove?
    && steps[m].quotedHash == run[k].packets[|run[k].packets| - 1].contentHash
    && run[m + 1].row.currentPacket == run[k].row.currentPacket == Some(|run[k].packets| - 1)
    && |run[m].events| < |run[k].events|
    && run[k].events[|run[m].events|].kind.PacketApproved? && run[k].events[|run[m].events|].actor.User?
    && forall j :: |run[m].events| < j < |run[k].events| ==> !Withdraws(run[k].events[j])
  }

  /** Where a world says an approval is in force, it was given, in this run, and it stands. */
  lemma ApprovalInForceWasGiven(digest: Material -> string, run: seq<World>, steps: seq<Step>, k: nat) returns (m: nat)
    requires IsRun(digest, run, steps) && k < |run|
    requires run[k].row.status in {Approved, Filling, AwaitingUserSubmit} && CurrentApproval(run[k]).Some?
    ensures ApprovedAndStanding(run, steps, m, k)
    ensures CurrentApproval(run[k]).value.expires == ApprovalExpiry(steps[m].approvedAt, steps[m].ttl)
  {
    RunKeepsInvariant(digest, run, steps, k);
    var i := ApprovalInForceIsOnRecord(digest, run[k]);
    FirstEventIsNoApproval(digest, run, steps, k);
    m := EventHasItsStep(digest, run, steps, k, i);
    ApprovalEventIsAStep(digest, run, steps, m);
  }

  lemma ApprovalInForceIsOnRecord(digest: Material -> string, w: World) returns (i: nat)
    requires Inv(digest, w)
    requires w.row.status in {Approved, Filling, AwaitingUserSubmit} && CurrentApproval(w).Some?
    ensures w.packets != [] && w.row.currentPacket == Some(|w.packets| - 1)
    ensures var packet := w.packets[|w.packets| - 1];
            StandsSince(w.events, i, Approving(|w.packets| - 1, packet.contentHash, packet.approval.value.expires))
    ensures w.events[i].actor.User?
  {
    i := StandingHasItsEvent(w.events);
    assert EventOk(w.events[i]);
    assert PacketOk(digest, w.packets[|w.packets| - 1]);
  }

  lemma ApprovalEventIsAStep(digest: Material -> string, run: seq<World>, steps: seq<Step>, m: nat)
    requires IsRun(digest, run, steps) && m < |steps|
    requires |run[m + 1].events| == |run[m].events| + 1 && run[m + 1].events[|run[m].events|].kind.PacketApproved?
    ensures steps[m].DoApprove? && run[m + 1].row.currentPacket.Some?
    ensures run[m + 1].events[|run[m].events|].data
         == Approving(run[m + 1].row.currentPacket.value, steps[m].quotedHash, ApprovalExpiry(steps[m].approvedAt, steps[m].ttl))
  {
    StepContext(digest, run, steps, m);
    ApprovalHasItsStep(digest, run[..m + 1], steps[m]);
    ApprovalKeepsThePacket(digest, run, steps, m);
  }

  lemma FirstEventIsNoApproval(digest: Material -> string, run: seq<World>, steps: seq<Step>, k: nat)
    requires IsRun(digest, run, steps) && k < |run|
    ensures |run[k].events| > 0 && !run[k].events[0].kind.PacketApproved?
  {
    RunIsLater(digest, run, steps, 0, k);
  }

  lemma ApprovalKeepsThePacket(digest: Material -> string, run: seq<World>, steps: seq<Step>, m: nat)
    requires IsRun(digest, run, steps) && m < |steps| && steps[m].DoApprove?
    ensures steps[m].row <= m && run[m + 1].row.currentPacket == run[steps[m].row].row.currentPacket
  {
    StepContext(digest, run, steps, m);
    ReadIsCurrent(run[..m + 1], steps[m].row, steps[m].row);
  }

  /**
    Every entry into `filling`, over every run: the packet filled is the newest one, every
    required question is answered, it describes the profile, job, CV and destination the step
    found live, and a user approved it by exactly its content hash; that approval has not been
    withdrawn or superseded, has not expired, and was given less than 24 hours before.
  */
  lemma FillGate(digest: Material -> string, run: seq<World>, steps: seq<Step>, k: nat) returns (m: nat)
    requires IsRun(digest, run, steps) && k < |steps|
    requires !run[k].row.status.Filling? && run[k + 1].row.status.Filling?
    ensures MayEnterFilling(run[k], steps[k])
    ensures ApprovedAndStanding(run, steps, m, k)
    ensures steps[k].now < steps[m].approvedAt + PACKET_APPROVAL_MAX_TTL_HOURS * HOUR
  {
    StepContext(digest, run, steps, k);
    FillEntry(digest, run[..k + 1], steps[k]);
    m := ApprovalInForceWasGiven(digest, run, steps, k);
    ExpiryIsBounded(steps[m].approvedAt, steps[m].ttl);
  }

  lemma OpeningEntersFilling(digest: Material -> string, run: seq<World>, steps: seq<Step>, k: nat)
    requires IsRun(digest, run, steps) && k < |steps| && steps[k].DoCreateSession?
    ensures !run[k].row.status.Filling? && run[k + 1].row.status.Filling?
    ensures run[k + 1].packets == run[k].packets && |run[k + 1].sessions| == |run[k].sessions| + 1
    ensures var added := run[k + 1].sessions[|run[k].sessions|];
            && added.packet < |run[k].packets| && run[k].row.currentPacket == Some(added.packet)
            && run[k].packets[added.packet].contentHash == added.contentHash == steps[k].quotedHash
  {
    StepContext(digest, run, steps, k);
    ReadIsCurrent(run[..k + 1], steps[k].row, steps[k].packet);
  }

  /** A stored packet keeps its content, and a session its packet, for the rest of the run. */
  lemma OpenedStays(digest: Material -> string, run: seq<World>, steps: seq<Step>, k: nat, j: nat, s: nat)
    requires IsRun(digest, run, steps) && k <= j < |run| && s < |run[k].sessions|
    requires run[k].sessions[s].packet < |run[k].packets|
    ensures s < |run[j].sessions| && run[j].sessions[s].packet == run[k].sessions[s].packet < |run[j].packets|
    ensures run[j].packets[run[k].sessions[s].packet].answers == run[k].packets[run[k].sessions[s].packet].answers
  {
    RunIsLater(digest, run, steps, k, j);
  }

  lemma GrantUnderHash(
    digest: Material -> string, w: World, p: nat, shown: Snapshot, answers: seq<PacketAnswer>, key: string, value: AnswerValue)
    requires Injective(digest) && Inv(digest, w) && p < |w.packets| && UniqueKeys(answers, AnswerKey)
    requires digest(BuildPacketHashMaterial(shown, answers)) == w.packets[p].contentHash
    ensures Grants(FillableFields(w.packets[p].answers), key, value) <==> Answers(answers, key, value)
  {
    var packet := w.packets[p];
    assert PacketOk(digest, packet);
    GrantCarriesApprovedAnswers(digest, shown, answers, packet.snapshot, packet.answers, key, value);
  }

  lemma FillGateOfOpening(digest: Material -> string, run: seq<World>, steps: seq<Step>, k: nat) returns (m: nat)
    requires IsRun(digest, run, steps) && k < |steps| && steps[k].DoCreateSession?
    ensures ApprovedAndStanding(run, steps, m, k) && steps[m].quotedHash == steps[k].quotedHash
  {
    OpeningEntersFilling(digest, run, steps, k);
    m := FillGate(digest, run, steps, k);
  }

  /** The session the step opens grants, ever after, what hashes to the hash its client quoted. */
  lemma OpenedGrants(
    digest: Material -> string, run: seq<World>, steps: seq<Step>, k: nat, j: nat,
    shown: Snapshot, answers: seq<PacketAnswer>, key: string, value: AnswerValue)
    requires Injective(digest) && IsRun(digest, run, steps)
    requires k < j < |run| && steps[k].DoCreateSession? && UniqueKeys(answers, AnswerKey)
    requires digest(BuildPacketHashMaterial(shown, answers)) == steps[k].quotedHash
    ensures var s := |run[k].sessions|;
            && s < |run[j].sessions| && run[j].sessions[s].packet < |run[j].packets|
            && run[k].row.currentPacket == Some(run[j].sessions[s].packet)
            && (Grants(FillableFields(run[j].packets[run[j].sessions[s].packet].answers), key, value)
                <==> Answers(answers, key, value))
  {
    OpeningEntersFilling(digest, run, steps, k);
    var s := |run[k].sessions|;
    OpenedStays(digest, run, steps, k + 1, j, s);
    RunKeepsInvariant(digest, run, steps, k + 1);
    GrantUnderHash(digest, run[k + 1], run[k + 1].sessions[s].packet, shown, answers, key, value);
  }

  /**
    Every session ever opened: at its opening step `k` a user's approval `m` of the packet it
    names, by the hash it quotes, was standing; and for as long as the run goes on the session
    grants, under every key, exactly the answer of whatever the user read under that hash.
  */
  lemma GrantIsWhatWasApproved(
    digest: Material -> string, run: seq<World>, steps: seq<Step>, k: nat, j: nat,
    shown: Snapshot, answers: seq<PacketAnswer>, key: string, value: AnswerValue) returns (m: nat)
    requires Injective(digest) && IsRun(digest, run, steps)
    requires k < j < |run| && steps[k].DoCreateSession? && UniqueKeys(answers, AnswerKey)
    requires digest(BuildPacketHashMaterial(shown, answers)) == steps[k].quotedHash
    ensures ApprovedAndStanding(run, steps, m, k) && steps[m].quotedHash == steps[k].quotedHash
    ensures var s := |run[k].sessions|;
            && s < |run[j].sessions| && run[j].sessions[s].packet < |run[j].packets|
            && run[k].row.currentPacket == Some(run[j].sessions[s].packet)
            && (Grants(FillableFields(run[j].packets[run[j].sessions[s].packet].answers), key, value)
                <==> Answers(answers, key, value))
  {
    OpenedGrants(digest, run, steps, k, j, shown, answers, key, value);
    m := FillGateOfOpening(digest, run, steps, k);
  }

  /** Once at or past submission, only an outcome the user records moves the application. */
  lemma OnlyTheUserMovesASubmission(digest: Material -> string, run: seq<World>, steps: seq<Step>, k: nat)
    requires IsRun(digest, run, steps) && k < |steps|
    requires run[k].row.status in {Submitted, OutcomeUnknown, Interview, Rejected, Offer, Withdrawn}
    requires run[k + 1].row != run[k].row
    ensures steps[k].DoRecordOutcome?
  {
    StepCommits(digest, run, steps, k);
    if !steps[k].DoRecordOutcome? {
      SubmissionStaysPut(digest, run[..k + 1], steps[k]);
    }
  }

  /** No move other than a recorded outcome starts at or past submission. */
  lemma NoOtherMoveFromSubmission(w: World, read: Row, to: Status, ev: EventInput, columns: Columns)
    requires AtOrPastSubmission(read.status) && to in {Approved, Filling, AwaitingUserSubmit, NeedsInput, Failed}
    ensures Transitioned(w, read, [to], ev, columns).None?
  {
  }

  lemma RunnerLeavesSubmission(
    digest: Material -> string, w: World, first: Row, p: nat, outcome: FillOutcome,
    discovered: seq<Discovered>, fingerprint: Option<string>)
    requires p < |w.packets| && AtOrPastSubmission(w.row.status)
    ensures RunnerResult(digest, w, first, w.row, p, outcome, discovered, fingerprint).None?
  {
    var answers := Merged(Collapsed(w.packets[p].answers, AnswerKey), discovered);
    if outcome.QuestionsLeft? && first.currentPacket == Some(p) && UnresolvedQuestionKeys(answers) != [] {
      var withdrawn := WithApproval(w, p, None);
      var revised := NewPacket(digest, w.packets[p].snapshot.(formFingerprint := fingerprint), answers);
      NoOtherMoveFromSubmission(withdrawn.(packets := withdrawn.packets + [revised]), w.row, NeedsInput,
        EventInput(FillPaused, Runner, About(p + 1)), NO_COLUMNS.(currentPacket := Some(p + 1)));
    } else {
      NoOtherMoveFromSubmission(w, w.row, FillStatus(outcome), EventInput(FillPaused, Runner, About(p)), NO_COLUMNS);
    }
  }

  lemma PacketStepsLeaveSubmission(digest: Material -> string, run: seq<World>, step: Step)
    requires UsesCurrentRow(run, step) && AtOrPastSubmission(run[|run| - 1].row.status) && WritesPackets(step)
    ensures Commit(digest, run, step).None?
  {
    var w := run[|run| - 1];
    if step.DoRunnerResult? && Commit(digest, run, step).Some? {
      RunnerResultIsLater(
        digest, w, run[step.first].row, run[step.row].row, step.p, step.outcome, step.discovered, step.fingerprint);
      assert run[step.row].row == w.row;
      RunnerLeavesSubmission(digest, w, run[step.first].row, step.p, step.outcome, step.discovered, step.fingerprint);
    }
  }

  lemma FillStepsLeaveSubmission(digest: Material -> string, run: seq<World>, step: Step)
    requires UsesCurrentRow(run, step) && AtOrPastSubmission(run[|run| - 1].row.status) && StartsOrEndsFill(step)
    requires Commit(digest, run, step).Some?
    ensures Commit(digest, run, step).value.row == run[|run| - 1].row
  {
  }

  lemma SubmissionStaysPut(digest: Material -> string, run: seq<World>, step: Step)
    requires UsesCurrentRow(run, step) && Commit(digest, run, step).Some?
    requires AtOrPastSubmission(run[|run| - 1].row.status) && !step.DoRecordOutcome?
    ensures Commit(digest, run, step).value.row == run[|run| - 1].row
  {
    if WritesPackets(step) {
      PacketStepsLeaveSubmission(digest, run, step);
    } else if StartsOrEndsFill(step) {
      FillStepsLeaveSubmission(digest, run, step);
    }
  }

  /** The first step of a run at or after `u` that leaves `outcome_unknown`. */
  lemma {:induction false} LeavesUnknown(run: seq<World>, u: nat, v: nat) returns (j: nat)
    requires u <= v < |run| && run[u].row.status.OutcomeUnknown? && !run[v].row.status.OutcomeUnknown?
    ensures u <= j < v && run[j].row.status.OutcomeUnknown? && !run[j + 1].row.status.OutcomeUnknown?
    decreases v - u
  {
    if run[u + 1].row.status.OutcomeUnknown? {
      j := LeavesUnknown(run, u + 1, v);
    } else {
      j := u;
    }
  }

  /**
    After an outcome nobody could establish, the next fill comes only after the user said what
    happened and then approved again.
  */
  lemma UnknownNeedsTheUserThenApproval(digest: Material -> string, run: seq<World>, steps: seq<Step>, u: nat, k: nat)
    returns (j: nat, m: nat)
    requires IsRun(digest, run, steps) && u < k < |steps|
    requires run[u].row.status.OutcomeUnknown?
    requires !run[k].row.status.Filling? && run[k + 1].row.status.Filling?
    ensures u <= j < m < k && steps[j].DoRecordOutcome? && run[j].row.status.OutcomeUnknown?
    ensures ApprovedAndStanding(run, steps, m, k)
  {
    m := FillGate(digest, run, steps, k);
    UnknownWouldWithdraw(digest, run, steps, u, k, m);
    ApprovalStartsFromReview(digest, run, steps, m);
    if m < u {
      RunIsLater(digest, run, steps, m + 1, u);
    }
    j := LeavesUnknown(run, u, m);
    OnlyTheUserMovesASubmission(digest, run, steps, j);
  }

  lemma ApprovalStartsFromReview(digest: Material -> string, run: seq<World>, steps: seq<Step>, m: nat)
    requires IsRun(digest, run, steps) && m < |steps| && steps[m].DoApprove?
    ensures run[m].row.status.ReadyForReview? && |run[m + 1].events| == |run[m].events| + 1
  {
    StepContext(digest, run, steps, m);
    ReadIsCurrent(run[..m + 1], steps[m].row, steps[m].row);
  }

  lemma UnknownWouldWithdraw(
    digest: Material -> string, run: seq<World>, steps: seq<Step>, u: nat, k: nat, m: nat)
    requires IsRun(digest, run, steps) && u < k < |run| && ApprovedAndStanding(run, steps, m, k)
    requires run[u].row.status.OutcomeUnknown?
    ensures |run[u].events| <= |run[m].events|
  {
    var a, past, events := |run[m].events|, run[u].events, run[k].events;
    RunIsLater(digest, run, steps, u, k);
    if a < |past| {
      ApprovalStatesAStatus(digest, run, steps, k, a);
      assert past[a] == events[a];
      var i := LastStatusFrom(past, a);
      assert past[i] == events[i];
      LastStatusIsStored(digest, run, steps, u, i);
    }
  }

  lemma ApprovalStatesAStatus(digest: Material -> string, run: seq<World>, steps: seq<Step>, k: nat, a: nat)
    requires IsRun(digest, run, steps) && k < |run| && a < |run[k].events| && run[k].events[a].kind.PacketApproved?
    ensures run[k].events[a].after == Some(Approved)
  {
    RunKeepsInvariant(digest, run, steps, k);
    assert EventOk(run[k].events[a]);
  }

  lemma LastStatusIsStored(digest: Material -> string, run: seq<World>, steps: seq<Step>, u: nat, i: nat)
    requires IsRun(digest, run, steps) && u < |run| && LastStatus(run[u].events, |run[u].events|, i)
    ensures run[u].events[i].after == Some(run[u].row.status)
  {
    HistoryReplays(digest, run, steps, u);
  }

  /** At or after an event that states a status there is a last one. */
  lemma {:induction false} LastStatusFrom(events: seq<Event>, a: nat) returns (i: nat)
    requires a < |events| && events[a].after.Some?
    ensures a <= i && LastStatus(events, |events|, i)
  {
    i := a;
    for n := a + 1 to |events|
      invariant a <= i && LastStatus(events, n, i)
    {
      if events[n].after.Some? {
        i := n;
      }
    }
  }
}
