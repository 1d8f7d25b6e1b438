/**
  What each step makes of an application, and exactly when it is committed. The effects hold of
  every step of every run, on whatever it had read; the conditions are for a handler whose reads
  are current, and say that a refusal has a reason.
*/
module ApplicationEffects {
  import opened Common
  import opened Ordering
  import opened InsertionMap
  import opened FillPlan
  import opened Packets
  import opened ApplicationMachine
  import opened ApplicationCommits
  import opened ApplicationRuns
  import opened ApplicationInvariant
  import opened ApplicationSafety
  import opened ApplicationGuarantees

  /** The packet the application is about: the newest. */
  ghost function NewestPacket(w: World): Packet
    requires w.packets != []
  {
    w.packets[|w.packets| - 1]
  }

  /** Every required question has an answer. */
  ghost predicate Complete(answers: seq<PacketAnswer>) {
    forall a :: a in answers && a.required ==> a.answer.Some?
  }

  /** The newest packet is approved, and its approval is no longer good. */
  ghost predicate ApprovalIsStale(w: World, live: Live, now: Time) {
    && w.row.status.Approved? && w.packets != [] && NewestPacket(w).approval.Some?
    && (!Describes(NewestPacket(w).snapshot, live) || NewestPacket(w).approval.value.expires <= now)
  }

  /** What a step that moved the application recorded about it. */
  ghost predicate RecordsAs(w: World, w': World, kind: EventKind, actor: Actor, data: EventData) {
    && |w'.events| == |w.events| + 1
    && var e := w'.events[|w.events|]; e.kind == kind && e.actor == actor && e.data == data
  }

  // ---------------------------------------------------------------------------
  // Packets
  // ---------------------------------------------------------------------------

  /** A new packet asks for input exactly when a required question has no answer, and else for review. */
  lemma CreatedPacketAsks(digest: Material -> string, run: seq<World>, steps: seq<Step>, k: nat)
    requires IsRun(digest, run, steps) && k < |steps| && steps[k].DoCreatePacket?
    ensures var w, w' := run[k], run[k + 1];
            && |w'.packets| == |w.packets| + 1 && w'.packets[..|w.packets|] == w.packets
            && NewestPacket(w').snapshot == steps[k].snapshot && NewestPacket(w').answers == steps[k].answers
            && NewestPacket(w').approval.None? && w'.row.currentPacket == Some(|w.packets|)
            && w'.row.status == (if Complete(steps[k].answers) then ReadyForReview else NeedsInput)
            && RecordsAs(w, w', PacketCreated, User, About(|w.packets|))
  {
    StepContext(digest, run, steps, k);
    NothingUnresolved(steps[k].answers);
  }

  /** A packet with distinct questions is accepted until the application is submitted or cancelled. */
  lemma CreatePacketCommitsIff(digest: Material -> string, run: seq<World>, snapshot: Snapshot, answers: seq<PacketAnswer>)
    requires run != []
    ensures Commit(digest, run, DoCreatePacket(|run| - 1, snapshot, answers)).Some? <==>
              && UniqueKeys(answers, AnswerKey)
              && run[|run| - 1].row.status in {Draft, Preparing, NeedsInput, ReadyForReview, Approved, Filling, Failed}
  {
    var w := run[|run| - 1];
    var target := if UnresolvedQuestionKeys(answers) != [] then NeedsInput else ReadyForReview;
    var path := if w.row.status.Preparing? then [target] else [Preparing, target];
    PathAllowedIff(w.row.status, path);
    if w.row.status.Preparing? {
      assert HopsLead(w.row.status, path) <==> HopStart(w.row.status, path, 0) == target || EntersFrom(w.row.status, target);
    } else {
      TwoHops(w.row.status, Preparing, target);
    }
  }

  lemma TwoHops(from: Status, via: Status, to: Status)
    ensures HopsLead(from, [via, to]) <==> (from == via || EntersFrom(from, via)) && (via == to || EntersFrom(via, to))
  {
    var path := [via, to];
    assert HopStart(from, path, 0) == from && HopStart(from, path, 1) == via;
  }

  lemma OneHop(from: Status, to: Status)
    ensures PathAllowed(from, [to]) <==> from == to || EntersFrom(from, to)
  {
    PathAllowedIff(from, [to]);
    assert HopStart(from, [to], 0) == from;
  }

  /** The approval lasts as many hours as the user set, at least one and at most 24. */
  ghost predicate LastsAsSet(approval: Approval, at: Time, ttl: int) {
    && approval.at == at
    && approval.expires == at + (if ttl < 1 then 1 else if ttl > 24 then 24 else ttl) * 60 * 60 * 1000
  }

  /** An approval is stamped on the newest packet, with its own hash, for one to 24 hours as the user set. */
  lemma ApprovalStamps(digest: Material -> string, run: seq<World>, steps: seq<Step>, k: nat)
    requires IsRun(digest, run, steps) && k < |steps| && steps[k].DoApprove?
    ensures var w, w' := run[k], run[k + 1];
            && w.row.status.ReadyForReview? && w'.row.status.Approved?
            && w.packets != [] && |w'.packets| == |w.packets|
            && w'.packets[..|w.packets| - 1] == w.packets[..|w.packets| - 1] && w'.sessions == w.sessions
            && NewestPacket(w).contentHash == steps[k].quotedHash
            && Complete(NewestPacket(w).answers) && Describes(NewestPacket(w).snapshot, steps[k].live)
            && NewestPacket(w').approval.Some? && NewestPacket(w').approval.value.hash == steps[k].quotedHash
            && LastsAsSet(NewestPacket(w').approval.value, steps[k].approvedAt, steps[k].ttl)
  {
    StepContext(digest, run, steps, k);
    ReadIsCurrent(run[..k + 1], steps[k].row, steps[k].packet);
    ApproveStamps(run[k], NewestPacket(run[k]), steps[k].quotedHash, steps[k].live, steps[k].now,
                  steps[k].approvedAt, steps[k].ttl);
  }

  lemma ApproveStamps(
    w: World, packet: Packet, quotedHash: string, live: Live, now: Time, approvedAt: Time, ttl: int)
    requires w.packets != [] && packet == NewestPacket(w)
    requires Approve(w, w.row, |w.packets| - 1, packet, quotedHash, live, now, approvedAt, ttl).Some?
    ensures var w' := Approve(w, w.row, |w.packets| - 1, packet, quotedHash, live, now, approvedAt, ttl).value;
            && w.row.status.ReadyForReview? && w'.row.status.Approved?
            && |w'.packets| == |w.packets| && packet.contentHash == quotedHash
            && w'.packets[..|w.packets| - 1] == w.packets[..|w.packets| - 1] && w'.sessions == w.sessions
            && Complete(packet.answers) && Describes(packet.snapshot, live)
            && NewestPacket(w').approval.Some? && NewestPacket(w').approval.value.hash == quotedHash
            && LastsAsSet(NewestPacket(w').approval.value, approvedAt, ttl)
  {
    NothingUnresolved(packet.answers);
    FreshMeansDescribed(packet, live, now);
  }

  lemma ApproveCommitsIff(
    digest: Material -> string, run: seq<World>, quotedHash: string, live: Live, now: Time, approvedAt: Time, ttl: int)
    requires run != [] && Inv(digest, run[|run| - 1])
    ensures var w, last := run[|run| - 1], |run| - 1;
            Commit(digest, run, DoApprove(last, last, quotedHash, live, now, approvedAt, ttl)).Some? <==>
              && w.row.status.ReadyForReview? && w.packets != [] && NewestPacket(w).contentHash == quotedHash
              && Complete(NewestPacket(w).answers) && Describes(NewestPacket(w).snapshot, live)
  {
    var w := run[|run| - 1];
    if w.packets != [] {
      NothingUnresolved(NewestPacket(w).answers);
      FreshMeansDescribed(NewestPacket(w), live, now);
      OneHop(w.row.status, Approved);
    }
  }

  /**
    A stale approval is withdrawn from the packet and the application goes back: to review where
    the packet still describes the world and only time has run out, and to preparation where the
    profile, job, CV or destination has moved.
  */
  lemma ReconcileGoesBack(digest: Material -> string, run: seq<World>, steps: seq<Step>, k: nat)
    requires IsRun(digest, run, steps) && k < |steps| && steps[k].DoReconcile?
    ensures var w, w' := run[k], run[k + 1];
            && ApprovalIsStale(w, steps[k].live, steps[k].now)
            && |w'.packets| == |w.packets| && NewestPacket(w').approval.None?
            && w'.packets[..|w.packets| - 1] == w.packets[..|w.packets| - 1] && w'.sessions == w.sessions
            && (if Describes(NewestPacket(w).snapshot, steps[k].live)
                then w'.row.status.ReadyForReview? && RecordsAs(w, w', ApprovalExpired, System, About(|w.packets| - 1))
                else w'.row.status.Preparing? && RecordsAs(w, w', ApprovalInvalidated, System, About(|w.packets| - 1)))
  {
    StepContext(digest, run, steps, k);
    ReadIsCurrent(run[..k + 1], steps[k].row, steps[k].packet);
    FreshMeansDescribed(NewestPacket(run[k]), steps[k].live, steps[k].now);
  }

  /** On a current read an approval is withdrawn exactly when it is stale. */
  lemma ReconcileCommitsIff(digest: Material -> string, run: seq<World>, live: Live, now: Time)
    requires run != [] && Inv(digest, run[|run| - 1])
    ensures Commit(digest, run, DoReconcile(|run| - 1, |run| - 1, live, now)).Some?
       <==> ApprovalIsStale(run[|run| - 1], live, now)
  {
    hide LogReplays, StatusOk, GateOk, EvidenceOk, SessionsOk, EventsOk, PacketOk;
    var w := run[|run| - 1];
    if w.packets != [] {
      FreshMeansDescribed(NewestPacket(w), live, now);
      OneHop(w.row.status, ReadyForReview);
      OneHop(w.row.status, Preparing);
    }
  }

  // ---------------------------------------------------------------------------
  // Filling
  // ---------------------------------------------------------------------------

  lemma MayFillIff(read: Row, packet: Packet, live: Live, now: Time)
    ensures MayFill(read, packet, live, now) <==>
              && read.status.Approved? && packet.approval.Some? && now < packet.approval.value.expires
              && Complete(packet.answers) && Describes(packet.snapshot, live)
  {
    NothingUnresolved(packet.answers);
    FreshMeansDescribed(packet, live, now);
  }

  /** On current reads a fill is accepted exactly when the gate is open. */
  lemma RequestFillCommitsIff(digest: Material -> string, run: seq<World>, live: Live, now: Time)
    requires run != [] && Inv(digest, run[|run| - 1])
    ensures var step := DoRequestFill(|run| - 1, |run| - 1, live, now);
            Commit(digest, run, step).Some? <==> MayEnterFilling(run[|run| - 1], step)
  {
    hide LogReplays, StatusOk, GateOk, EvidenceOk, SessionsOk, EventsOk, PacketOk, MayFill;
    var w := run[|run| - 1];
    if w.packets != [] {
      MayFillIff(w.row, NewestPacket(w), live, now);
      OneHop(w.row.status, Filling);
    }
  }

  /** The session a device is given: its own, for the packet approved, on its origin, open for ten minutes. */
  ghost predicate Opens(w: World, w': World, step: Step)
    requires step.DoCreateSession? && w.packets != []
  {
    && |w'.sessions| == |w.sessions| + 1
    && w'.sessions[|w.sessions|] == Session(
         step.device, |w.packets| - 1, NewestPacket(w).contentHash, NewestPacket(w).snapshot.destination.origin,
         step.now + 600000, None)
    && forall s :: 0 <= s < |w.sessions| ==>
         && w'.sessions[s].ended.Some?
         && (w.sessions[s].ended.Some? ==> w'.sessions[s] == w.sessions[s])
         && (w.sessions[s].ended.None? ==>
               w.sessions[s].expires <= step.now && w'.sessions[s].ended == Some(Ending(step.now, Superseded)))
  }

  /**
    A device is only ever given a session for an origin it was paired for, on the gate's terms;
    the session is the only one open, and any it found open had run out. The device is
    authenticated before anything else is read.
  */
  lemma SessionOpensForItsDevice(digest: Material -> string, run: seq<World>, steps: seq<Step>, k: nat)
    requires IsRun(digest, run, steps) && k < |steps| && steps[k].DoCreateSession?
    ensures MayEnterFilling(run[k], steps[k]) && PairedFor(steps[k].declared, NewestPacket(run[k]).snapshot.destination.origin)
    ensures Opens(run[k], run[k + 1], steps[k]) && run[k + 1].row.status.Filling?
    ensures steps[k].auth <= steps[k].row <= steps[k].packet <= k && steps[k].device !in run[steps[k].auth].revoked
    ensures RecordsAs(run[k], run[k + 1], FillRequested, User, About(|run[k].packets| - 1))
  {
    hide LogReplays, StatusOk, GateOk, EvidenceOk, SessionsOk, EventsOk, PacketOk, MayFill, Follows;
    StepContext(digest, run, steps, k);
    FillStepMayEnter(digest, run[..k + 1], steps[k]);
    ReadIsCurrent(run[..k + 1], steps[k].row, steps[k].packet);
  }

  /** Asked for from an origin outside a list it was paired for, a session is refused, whatever else holds. */
  lemma UnpairedOriginIsRefused(digest: Material -> string, run: seq<World>, step: Step)
    requires run != [] && step.DoCreateSession? && step.declared != []
    requires forall i :: 0 <= i < |step.declared| ==> step.declared[i] != step.tabOrigin
    ensures Commit(digest, run, step).None?
  {
  }

  /** On current reads a session is opened exactly when the gate is open, the device is not revoked and no other is open. */
  lemma CreateSessionCommitsIff(
    digest: Material -> string, run: seq<World>, device: nat, declared: seq<string>,
    quotedHash: string, tabOrigin: string, live: Live, now: Time)
    requires run != [] && Inv(digest, run[|run| - 1])
    ensures var w, last := run[|run| - 1], |run| - 1;
            var step := DoCreateSession(last, last, last, device, declared, quotedHash, tabOrigin, live, now);
            Commit(digest, run, step).Some? <==>
              && MayEnterFilling(w, step) && device !in w.revoked
              && forall s :: 0 <= s < |w.sessions| ==> w.sessions[s].ended.Some? || w.sessions[s].expires <= now
  {
    hide LogReplays, StatusOk, GateOk, EvidenceOk, SessionsOk, EventsOk, PacketOk, MayFill;
    var w := run[|run| - 1];
    if w.packets != [] {
      MayFillIff(w.row, NewestPacket(w), live, now);
      OneHop(w.row.status, Filling);
      var sessions := EndExpired(w.sessions, now);
      assert AllEnded(sessions) <==>
               forall s :: 0 <= s < |w.sessions| ==> w.sessions[s].ended.Some? || w.sessions[s].expires <= now;
    }
  }

  /** Where a fill's outcome leaves the application. */
  ghost predicate Leaves(outcome: FillOutcome, status: Status) {
    match outcome
    case AwaitingSubmit => status.AwaitingUserSubmit?
    case QuestionsLeft => status.NeedsInput?
    case NoAdapter => status.Approved?
  }

  /** A session's report moves the application to where its outcome says, and the packets stay. */
  lemma ReportMoves(digest: Material -> string, run: seq<World>, steps: seq<Step>, k: nat)
    requires IsRun(digest, run, steps) && k < |steps| && steps[k].DoReportSession?
    ensures Leaves(steps[k].outcome, run[k + 1].row.status) && run[k + 1].packets == run[k].packets
    ensures steps[k].session < |run[k].sessions|
    ensures RecordsAs(run[k], run[k + 1], FillPaused, Runner, About(run[k].sessions[steps[k].session].packet))
    ensures steps[k].auth <= steps[k].row <= k && run[k].sessions[steps[k].session].device !in run[steps[k].auth].revoked
  {
    StepContext(digest, run, steps, k);
    SessionIsHeld(run[..k + 1], steps[k].auth, steps[k].session);
  }

  /** On current reads a session reports exactly while it is open, from its own origin, and the outcome leads on. */
  lemma ReportCommitsIff(
    digest: Material -> string, run: seq<World>, session: nat, pageOrigin: Option<string>, outcome: FillOutcome, now: Time)
    requires run != []
    ensures var w, last := run[|run| - 1], |run| - 1;
            Commit(digest, run, DoReportSession(last, last, session, pageOrigin, outcome, now)).Some? <==>
              && session < |w.sessions| && w.sessions[session].device !in w.revoked
              && w.sessions[session].ended.None? && now < w.sessions[session].expires
              && (pageOrigin.None? || pageOrigin.value == w.sessions[session].origin)
              && exists to :: Leaves(outcome, to) && (w.row.status == to || EntersFrom(w.row.status, to))
  {
    var w := run[|run| - 1];
    var to := FillStatus(outcome);
    OneHop(w.row.status, to);
    assert Leaves(outcome, to);
  }

  /** A runner's result moves the application to where its outcome says. */
  lemma ResultMoves(digest: Material -> string, run: seq<World>, steps: seq<Step>, k: nat)
    requires IsRun(digest, run, steps) && k < |steps| && steps[k].DoRunnerResult?
    ensures Leaves(steps[k].outcome, run[k + 1].row.status)
    ensures steps[k].first <= steps[k].row <= k && steps[k].p < |run[steps[k].first].packets|
  {
    hide Inv, Follows, Recorded;
    StepContext(digest, run, steps, k);
  }

  /** What a look says hangs together: a confirmation and no reason, or a reason and no confirmation. */
  ghost predicate IsCoherent(o: Observation) {
    && (o.observed ==> o.confirmation.Some? && o.reason.None?)
    && (!o.observed ==> o.confirmation.None? && o.reason.Some?)
  }

  /** The browser that filled the form may look only at a page of an origin it was paired for, the packet's own. */
  lemma LooksOnlyWhereItFilled(digest: Material -> string, run: seq<World>, steps: seq<Step>, k: nat)
    requires IsRun(digest, run, steps) && k < |steps| && steps[k].DoObserveFromSession?
    ensures run[k].row.status.AwaitingUserSubmit? && run[k].packets != []
    ensures steps[k].session < |run[k].sessions|
    ensures var s := run[k].sessions[steps[k].session];
            && s.ended.Some? && s.ended.value.reason.Reported? && s.packet == |run[k].packets| - 1
            && IsCoherent(steps[k].observation)
            && steps[k].seenOrigin == NewestPacket(run[k]).snapshot.destination.origin
            && PairedFor(steps[k].declared, steps[k].seenOrigin)
  {
    StepContext(digest, run, steps, k);
    SessionIsHeld(run[..k + 1], steps[k].auth, steps[k].session);
  }

  /** On current reads a look is recorded exactly where it may be taken and hangs together. */
  lemma ObserveCommitsIff(
    digest: Material -> string, run: seq<World>, session: nat, declared: seq<string>, seenOrigin: string, o: Observation)
    requires run != [] && Inv(digest, run[|run| - 1])
    ensures var w := run[|run| - 1];
            Commit(digest, run, DoObserveFromSession(|run| - 1, session, declared, seenOrigin, o)).Some? <==>
              && session < |w.sessions| && w.sessions[session].device !in w.revoked
              && w.sessions[session].ended.Some? && w.sessions[session].ended.value.reason.Reported?
              && w.row.status.AwaitingUserSubmit? && w.sessions[session].packet == |w.packets| - 1
              && IsCoherent(o) && seenOrigin == NewestPacket(w).snapshot.destination.origin && PairedFor(declared, seenOrigin)
  {
    hide LogReplays, GateOk, EvidenceOk, EventsOk, PacketOk;
    var w := run[|run| - 1];
    OneHop(w.row.status, Submitted);
    OneHop(w.row.status, OutcomeUnknown);
  }

  /** Asking for a look leaves the application waiting for the person, and is possible exactly while it does. */
  lemma RequestedLookWaits(digest: Material -> string, run: seq<World>, steps: seq<Step>, k: nat)
    requires IsRun(digest, run, steps) && k < |steps| && steps[k].DoRequestObservation?
    ensures run[k].row.status.AwaitingUserSubmit? && run[k].packets != []
    ensures run[k + 1].row == run[k].row.(revision := run[k].row.revision + 1)
    ensures run[k + 1].packets == run[k].packets && run[k + 1].sessions == run[k].sessions
    ensures RecordsAs(run[k], run[k + 1], Note, User, About(|run[k].packets| - 1))
  {
    StepContext(digest, run, steps, k);
    ReadIsCurrent(run[..k + 1], steps[k].row, steps[k].row);
  }

  lemma RequestObservationCommitsIff(digest: Material -> string, run: seq<World>)
    requires run != [] && Inv(digest, run[|run| - 1])
    ensures Commit(digest, run, DoRequestObservation(|run| - 1)).Some? <==> run[|run| - 1].row.status.AwaitingUserSubmit?
  {
    hide LogReplays, GateOk, EvidenceOk, SessionsOk, EventsOk, PacketOk;
    OneHop(run[|run| - 1].row.status, AwaitingUserSubmit);
  }

  /** A device ends its own open session, and the sweep every open session that has run out; nothing else changes. */
  lemma SessionsEnd(digest: Material -> string, run: seq<World>, steps: seq<Step>, k: nat)
    requires IsRun(digest, run, steps) && k < |steps| && (steps[k].DoEndSession? || steps[k].DoSweepSessions?)
    ensures var w, w' := run[k], run[k + 1];
            && w' == w.(sessions := w'.sessions) && |w'.sessions| == |w.sessions|
            && (steps[k].DoEndSession? ==>
                  && steps[k].session < |w.sessions| && w.sessions[steps[k].session].ended.None?
                  && w'.sessions[steps[k].session].ended == Some(Ending(steps[k].now, CancelledByDevice))
                  && forall s :: 0 <= s < |w.sessions| && s != steps[k].session ==> w'.sessions[s] == w.sessions[s])
            && (steps[k].DoSweepSessions? ==>
                  forall s :: 0 <= s < |w.sessions| ==>
                    w'.sessions[s] ==
                      if w.sessions[s].ended.None? && w.sessions[s].expires <= steps[k].now
                      then w.sessions[s].(ended := Some(Ending(steps[k].now, Superseded))) else w.sessions[s])
  {
    StepContext(digest, run, steps, k);
  }

  /** A revocation is recorded and ends exactly the open sessions of its device, at once; nothing else changes. */
  lemma RevocationReaches(digest: Material -> string, run: seq<World>, steps: seq<Step>, k: nat)
    requires IsRun(digest, run, steps) && k < |steps| && steps[k].DoRevokeDevice?
    ensures var w, w' := run[k], run[k + 1];
            && w'.revoked == w.revoked + {steps[k].device}
            && w' == w.(revoked := w'.revoked, sessions := w'.sessions) && |w'.sessions| == |w.sessions|
            && forall s :: 0 <= s < |w.sessions| ==>
                 w'.sessions[s] ==
                   if w.sessions[s].device == steps[k].device && w.sessions[s].ended.None?
                   then w.sessions[s].(ended := Some(Ending(steps[k].now, DeviceRevoked))) else w.sessions[s]
  {
    StepContext(digest, run, steps, k);
  }

  /** A failed fill fails an application that was read as filling, and is only noted of any other. */
  lemma FailureIsNoted(digest: Material -> string, run: seq<World>, steps: seq<Step>, k: nat)
    requires IsRun(digest, run, steps) && k < |steps| && steps[k].DoRunnerFailure? && steps[k].row < |run|
    ensures if run[steps[k].row].row.status.Filling?
            then run[k + 1].row.status.Failed? && RecordsAs(run[k], run[k + 1], FillFailed, Runner, About(steps[k].p))
            else run[k + 1] == run[k].(events := run[k + 1].events)
                 && RecordsAs(run[k], run[k + 1], FillFailed, Runner, About(steps[k].p))
  {
    StepContext(digest, run, steps, k);
    NotedIs(run[k], EventInput(FillFailed, Runner, About(steps[k].p)));
  }

  // ---------------------------------------------------------------------------
  // Outcomes
  // ---------------------------------------------------------------------------

  /** What a person says of their application, as a status. */
  ghost predicate MeansStatus(told: Outcome, status: Status) {
    match told
    case WasSubmitted => status.Submitted?
    case WasNotSubmitted => status.Preparing?
    case IsUnknown => status.OutcomeUnknown?
    case GotInterview => status.Interview?
    case WasRejected => status.Rejected?
    case GotOffer => status.Offer?
    case HasWithdrawn => status.Withdrawn?
    case WasCancelled => status.Cancelled?
  }

  /**
    A recorded outcome moves the application to that outcome's status. Time and evidence are kept
    only at or past submission: the time that was there, the evidence the person now gives.
  */
  lemma OutcomeMoves(digest: Material -> string, run: seq<World>, steps: seq<Step>, k: nat)
    requires IsRun(digest, run, steps) && k < |steps| && steps[k].DoRecordOutcome?
    ensures var w, w' := run[k], run[k + 1];
            && MeansStatus(steps[k].told, w'.row.status) && w'.packets == w.packets
            && (steps[k].told in {WasNotSubmitted, WasCancelled} ==> w'.row.submittedAt.None? && w'.row.evidence.None?)
            && (steps[k].told !in {WasNotSubmitted, WasCancelled, WasSubmitted} ==> w'.row.submittedAt == w.row.submittedAt)
            && (steps[k].told !in {WasNotSubmitted, WasCancelled} ==>
                  w'.row.evidence ==
                    if steps[k].kind.NoEvidence? && steps[k].report.None? then None
                    else Some(Evidence(steps[k].kind,
                      if steps[k].report.Some? then steps[k].report.value.observedAt else None,
                      if steps[k].report.Some? then steps[k].report.value.detail else "")))
            && RecordsAs(w, w',
                 if steps[k].told.WasCancelled? then CancellationRecorded
                 else if steps[k].told.WasSubmitted? then SubmissionRecorded else OutcomeRecorded, User, Nothing)
  {
    StepCommits(digest, run, steps, k);
  }

  /** On a current read an outcome is recorded exactly when its status can follow and it claims no more than a person can. */
  lemma RecordOutcomeCommitsIff(
    digest: Material -> string, run: seq<World>, told: Outcome, kind: EvidenceKind, report: Option<Report>, now: Time)
    requires run != []
    ensures Commit(digest, run, DoRecordOutcome(|run| - 1, told, kind, report, now)).Some? <==>
              && !kind.AdapterObserved? && !(told.WasSubmitted? && kind.NoEvidence?)
              && exists to :: && MeansStatus(told, to)
                              && (run[|run| - 1].row.status == to || EntersFrom(run[|run| - 1].row.status, to))
  {
    var to := OutcomeStatus(told);
    OneHop(run[|run| - 1].row.status, to);
    assert MeansStatus(told, to);
  }
}
