/**
  What holds of an application after every committed step, stated of one world at a time:
  the log replays, the current packet is the newest, every packet's hash is its own, an
  approval in force is on record, evidence belongs to a submission, and at most one fill
  session is open.
*/
module ApplicationInvariant {
  import opened Common
  import opened Ordering
  import opened InsertionMap
  import opened FillPlan
  import opened Packets
  import opened ApplicationMachine
  import opened ApplicationCommits

  // ---------------------------------------------------------------------------
  // Packets and approvals
  // ---------------------------------------------------------------------------

  function Newest(packets: seq<Packet>): Option<nat> {
    if packets == [] then None else Some(|packets| - 1)
  }

  ghost predicate PacketOk(digest: Material -> string, p: Packet) {
    && p.contentHash == digest(BuildPacketHashMaterial(p.snapshot, p.answers))
    && UniqueKeys(p.answers, AnswerKey)
    && (p.approval.Some? ==>
          && p.approval.value.hash == p.contentHash
          && p.approval.value.at + HOUR <= p.approval.value.expires
          && p.approval.value.expires <= p.approval.value.at + PACKET_APPROVAL_MAX_TTL_HOURS * HOUR
          && UnresolvedQuestionKeys(p.answers) == [])
  }

  ghost predicate PacketsOk(digest: Material -> string, w: World) {
    && w.row.currentPacket == Newest(w.packets)
    && forall p :: 0 <= p < |w.packets| ==> PacketOk(digest, w.packets[p])
  }

  /** The approval on the packet the row names. */
  function CurrentApproval(w: World): Option<Approval> {
    if w.packets == [] then None else w.packets[|w.packets| - 1].approval
  }

  ghost predicate StatusOk(w: World) {
    && (w.row.status in {ReadyForReview, Approved, Filling, AwaitingUserSubmit} ==> w.packets != [])
    && (w.row.status.ReadyForReview? ==> CurrentApproval(w).None?)
    && (w.row.status in {Filling, AwaitingUserSubmit} ==> CurrentApproval(w).Some?)
  }

  /** Events after which an approval given earlier counts for nothing. */
  predicate Withdraws(e: Event) {
    || e.kind in {PacketCreated, ApprovalInvalidated, ApprovalExpired}
    || (e.after.Some? && e.after.value in {Preparing, NeedsInput, ReadyForReview, OutcomeUnknown})
  }

  /** The approval the history says is in force. */
  function Standing(events: seq<Event>): Option<EventData> {
    if events == [] then None
    else
      var last := events[|events| - 1];
      if last.kind.PacketApproved? then Some(last.data)
      else if Withdraws(last) then None
      else Standing(events[..|events| - 1])
  }

  /** Where the approval in force was given: nothing since has withdrawn or replaced it. */
  ghost predicate StandsSince(events: seq<Event>, i: nat, data: EventData) {
    && i < |events| && events[i].kind.PacketApproved? && events[i].data == data
    && forall j :: i < j < |events| ==> !events[j].kind.PacketApproved? && !Withdraws(events[j])
  }

  lemma {:induction false} StandingHasItsEvent(events: seq<Event>) returns (i: nat)
    requires Standing(events).Some?
    ensures StandsSince(events, i, Standing(events).value)
  {
    var n := |events| - 1;
    if events[n].kind.PacketApproved? {
      i := n;
    } else {
      i := StandingHasItsEvent(events[..n]);
      assert forall j :: 0 <= j < n ==> events[..n][j] == events[j];
    }
  }

  ghost predicate GateOk(w: World) {
    w.row.status in {Approved, Filling, AwaitingUserSubmit} && CurrentApproval(w).Some? ==>
      Standing(w.events)
        == Some(Approving(|w.packets| - 1, CurrentApproval(w).value.hash, CurrentApproval(w).value.expires))
  }

  // ---------------------------------------------------------------------------
  // Evidence and sessions
  // ---------------------------------------------------------------------------

  /** A runner's own observation, made while the application waited for the person. */
  predicate IsObservation(e: Event) {
    e.kind.SubmissionRecorded? && e.actor.Runner? && e.before == Some(AwaitingUserSubmit) && e.after == Some(Submitted)
  }

  ghost predicate EvidenceOk(w: World) {
    && (w.row.submittedAt.Some? || w.row.evidence.Some? ==> AtOrPastSubmission(w.row.status))
    && (AtOrPastSubmission(w.row.status) && !w.row.status.OutcomeUnknown? ==> w.row.submittedAt.Some?)
    && (w.row.evidence.Some? && w.row.evidence.value.kind.AdapterObserved? ==>
          && w.row.status.Submitted?
          && w.row.submittedAt == w.row.evidence.value.observedAt
          && exists i: nat :: LastStatus(w.events, |w.events|, i) && IsObservation(w.events[i]))
  }

  ghost predicate SessionOk(packets: seq<Packet>, s: Session) {
    && s.packet < |packets|
    && s.contentHash == packets[s.packet].contentHash
    && s.origin == packets[s.packet].snapshot.destination.origin
    && (s.ended.Some? && s.ended.value.reason.Reported? ==> s.ended.value.at < s.expires)
  }

  ghost predicate SessionsOk(w: World) {
    && (forall s :: 0 <= s < |w.sessions| ==> SessionOk(w.packets, w.sessions[s]))
    && (forall s, t :: 0 <= s < t < |w.sessions| ==> w.sessions[s].ended.Some? || w.sessions[t].ended.Some?)
  }

  // ---------------------------------------------------------------------------
  // The history
  // ---------------------------------------------------------------------------

  /** The statuses an event went through, the ones it passed on the way included. */
  function Hops(e: Event): seq<Status>
    requires e.before.Some? && e.after.Some?
  {
    if e.path == [] then [e.before.value, e.after.value] else e.path
  }

  ghost predicate EventOk(e: Event) {
    && (e.before.Some? ==>
          && e.after.Some?
          && Hops(e)[0] == e.before.value && Hops(e)[|Hops(e)| - 1] == e.after.value
          && forall h :: 0 < h < |Hops(e)| ==> Allowed(Hops(e)[h - 1], Hops(e)[h]))
    && (e.before == Some(OutcomeUnknown) ==> e.actor.User?)
    && (e.after == Some(Filling) && e.before != Some(Filling) ==> e.kind.FillRequested? && e.before == Some(Approved))
    && (e.kind.PacketApproved? ==> e.actor.User? && e.before == Some(ReadyForReview) && e.after == Some(Approved))
  }

  ghost predicate EventsOk(w: World) {
    forall i :: 0 <= i < |w.events| ==> EventOk(w.events[i])
  }

  ghost predicate Inv(digest: Material -> string, w: World) {
    LogReplays(w) && PacketsOk(digest, w) && StatusOk(w) && GateOk(w) && EvidenceOk(w) && SessionsOk(w) && EventsOk(w)
  }

  lemma NewApplicationIsSound(digest: Material -> string, revoked: set<nat>)
    ensures Inv(digest, NewApplication(revoked))
  {
  }

  // ---------------------------------------------------------------------------
  // Moves
  // ---------------------------------------------------------------------------

  /** The event a transition records. */
  function MoveEvent(events: seq<Event>, from: Status, path: seq<Status>, ev: EventInput): Event {
    Event(MaxSequence(events) + 1, ev.kind, ev.actor, Some(from), Some(PathEnd(from, path)), ev.data,
      if |path| > 1 then [from] + path else [])
  }

  /** Who may make which moves. */
  predicate MoveIsProper(from: Status, path: seq<Status>, ev: EventInput) {
    && 1 <= |path| <= 2
    && (from.OutcomeUnknown? ==> ev.actor.User?)
    && (PathEnd(from, path).Filling? && !from.Filling? ==> ev.kind.FillRequested? && from.Approved?)
    && (ev.kind.PacketApproved? ==> ev.actor.User? && from.ReadyForReview? && path == [Approved])
  }

  lemma MoveEventIsOk(events: seq<Event>, from: Status, path: seq<Status>, ev: EventInput)
    requires PathAllowed(from, path) && MoveIsProper(from, path, ev)
    ensures EventOk(MoveEvent(events, from, path, ev))
  {
  }

  lemma EventsOkAppended(events: seq<Event>, e: Event)
    requires (forall i :: 0 <= i < |events| ==> EventOk(events[i])) && EventOk(e)
    ensures forall i :: 0 <= i < |events + [e]| ==> EventOk((events + [e])[i])
    ensures Standing(events + [e]) == (
              if e.kind.PacketApproved? then Some(e.data) else if Withdraws(e) then None else Standing(events))
  {
  }

  /** What a move does to the history's own part of the invariant. */
  lemma MoveKeepsHistory(w: World, base: World, path: seq<Status>, ev: EventInput, columns: Columns)
    requires LogReplays(w) && EventsOk(w)
    requires base.row == w.row && base.events == w.events
    requires Transitioned(base, w.row, path, ev, columns).Some? && MoveIsProper(w.row.status, path, ev)
    ensures var w', e := Transitioned(base, w.row, path, ev, columns).value, MoveEvent(w.events, w.row.status, path, ev);
            && LogReplays(w') && EventsOk(w') && w'.events == w.events + [e]
            && Standing(w'.events) == (
                 if e.kind.PacketApproved? then Some(e.data) else if Withdraws(e) then None else Standing(w.events))
            && LastStatus(w'.events, |w'.events|, |w'.events| - 1)
  {
    TransitionReplays(base, w.row, path, ev, columns);
    MoveEventIsOk(w.events, w.row.status, path, ev);
    EventsOkAppended(w.events, MoveEvent(w.events, w.row.status, path, ev));
  }

  /** A move that leaves packets and sessions alone need only answer for the status, the approval and the evidence. */
  lemma PlainMoveKeeps(digest: Material -> string, w: World, path: seq<Status>, ev: EventInput, columns: Columns)
    requires Inv(digest, w) && MoveIsProper(w.row.status, path, ev) && columns.currentPacket.None?
    requires Transitioned(w, w.row, path, ev, columns).Some?
    requires var w' := Transitioned(w, w.row, path, ev, columns).value; StatusOk(w') && GateOk(w') && EvidenceOk(w')
    ensures Inv(digest, Transitioned(w, w.row, path, ev, columns).value)
  {
    MoveKeepsHistory(w, w, path, ev, columns);
  }

  lemma NoteKeeps(digest: Material -> string, w: World, ev: EventInput)
    requires Inv(digest, w) && ev.kind in {Note, FillFailed}
    ensures Inv(digest, Noted(w, ev))
  {
    var w' := Noted(w, ev);
    ReplayAppended(w.events, ev, None, None, []);
    EventsOkAppended(w.events, Event(MaxSequence(w.events) + 1, ev.kind, ev.actor, None, None, ev.data, []));
    assert forall i: nat :: LastStatus(w.events, |w.events|, i) ==> LastStatus(w'.events, |w'.events|, i);
  }

  lemma NewestPacketKeeps(digest: Material -> string, w: World, packet: Packet)
    requires PacketsOk(digest, w) && SessionsOk(w) && PacketOk(digest, packet)
    ensures forall p :: 0 <= p < |w.packets + [packet]| ==> PacketOk(digest, (w.packets + [packet])[p])
    ensures SessionsOk(w.(packets := w.packets + [packet]))
  {
  }

  lemma CreatePacketKeeps(digest: Material -> string, w: World, snapshot: Snapshot, answers: seq<PacketAnswer>)
    requires Inv(digest, w) && CreatePacket(digest, w, w.row, snapshot, answers).Some?
    ensures Inv(digest, CreatePacket(digest, w, w.row, snapshot, answers).value)
  {
    var target := if UnresolvedQuestionKeys(answers) != [] then NeedsInput else ReadyForReview;
    var packet := NewPacket(digest, snapshot, answers);
    NewestPacketKeeps(digest, w, packet);
    MoveKeepsHistory(w, w.(packets := w.packets + [packet]),
      if w.row.status.Preparing? then [target] else [Preparing, target],
      EventInput(PacketCreated, User, About(|w.packets|)), NO_COLUMNS.(currentPacket := Some(|w.packets|)));
  }

  lemma ApproveKeeps(
    digest: Material -> string, w: World, p: nat, quotedHash: string, live: Live, now: Time, approvedAt: Time, ttl: int)
    requires Inv(digest, w) && w.row.currentPacket == Some(p) && p < |w.packets|
    requires Approve(w, w.row, p, w.packets[p], quotedHash, live, now, approvedAt, ttl).Some?
    ensures Inv(digest, Approve(w, w.row, p, w.packets[p], quotedHash, live, now, approvedAt, ttl).value)
  {
    var expires := ApprovalExpiry(approvedAt, ttl);
    ExpiryIsBounded(approvedAt, ttl);
    MoveKeepsHistory(w, WithApproval(w, p, Some(Approval(approvedAt, w.packets[p].contentHash, expires))), [Approved],
      EventInput(PacketApproved, User, Approving(p, w.packets[p].contentHash, expires)), NO_COLUMNS);
  }

  lemma ReconcileKeeps(digest: Material -> string, w: World, p: nat, live: Live, now: Time)
    requires Inv(digest, w) && w.row.currentPacket == Some(p) && p < |w.packets|
    requires Reconcile(w, w.row, p, w.packets[p], live, now).Some?
    ensures Inv(digest, Reconcile(w, w.row, p, w.packets[p], live, now).value)
  {
    var expiredOnly := PacketStaleness(w.packets[p], live, now) == [ApprovalRanOut];
    MoveKeepsHistory(w, WithApproval(w, p, None), [if expiredOnly then ReadyForReview else Preparing],
      EventInput(if expiredOnly then ApprovalExpired else ApprovalInvalidated, System, About(p)), NO_COLUMNS);
  }

  lemma RequestFillKeeps(digest: Material -> string, w: World, p: nat, live: Live, now: Time)
    requires Inv(digest, w) && w.row.currentPacket == Some(p) && p < |w.packets|
    requires RequestFill(w, w.row, p, w.packets[p], live, now).Some?
    ensures Inv(digest, RequestFill(w, w.row, p, w.packets[p], live, now).value)
  {
    MoveKeepsHistory(w, w, [Filling], EventInput(FillRequested, User, About(p)), NO_COLUMNS);
  }

  lemma CreateSessionKeeps(
    digest: Material -> string, w: World, p: nat, device: nat, declared: seq<string>,
    quotedHash: string, tabOrigin: string, live: Live, now: Time)
    requires Inv(digest, w) && w.row.currentPacket == Some(p) && p < |w.packets|
    requires CreateSession(w, w.row, p, w.packets[p], device, declared, quotedHash, tabOrigin, live, now).Some?
    ensures Inv(digest, CreateSession(w, w.row, p, w.packets[p], device, declared, quotedHash, tabOrigin, live, now).value)
  {
    var added := Session(device, p, w.packets[p].contentHash, tabOrigin, now + FILL_SESSION_TTL, None);
    MoveKeepsHistory(w, w.(sessions := EndExpired(w.sessions, now) + [added]), [Filling],
      EventInput(FillRequested, User, About(p)), NO_COLUMNS);
  }

  lemma ReportedKeepsSessions(w: World, s: nat, now: Time)
    requires SessionsOk(w) && s < |w.sessions| && w.sessions[s].ended.None? && now < w.sessions[s].expires
    ensures SessionsOk(EndSession(w, s, now, Reported))
  {
  }

  /** Moving on from a fill keeps what the status says of the approval. */
  lemma MovedOnKeepsGate(w: World, w': World, outcome: FillOutcome)
    requires StatusOk(w) && GateOk(w) && Allowed(w.row.status, FillStatus(outcome))
    requires w'.packets == w.packets && w'.row.status == FillStatus(outcome)
    requires !outcome.QuestionsLeft? ==> Standing(w'.events) == Standing(w.events)
    ensures StatusOk(w') && GateOk(w')
  {
  }

  /** A fill's report moves the status and nothing else the invariant reads of the packets. */
  lemma MovedOnKeeps(digest: Material -> string, w: World, base: World, outcome: FillOutcome, ev: EventInput)
    requires Inv(digest, w) && SessionsOk(base)
    requires base.row == w.row && base.packets == w.packets && base.events == w.events
    requires ev.kind.FillPaused?
    requires Transitioned(base, w.row, [FillStatus(outcome)], ev, NO_COLUMNS).Some?
    ensures Inv(digest, Transitioned(base, w.row, [FillStatus(outcome)], ev, NO_COLUMNS).value)
  {
    MoveKeepsHistory(w, base, [FillStatus(outcome)], ev, NO_COLUMNS);
    MovedOnKeepsGate(w, Transitioned(base, w.row, [FillStatus(outcome)], ev, NO_COLUMNS).value, outcome);
  }

  lemma ReportSessionKeeps(
    digest: Material -> string, w: World, s: nat, held: Session, pageOrigin: Option<string>, outcome: FillOutcome, now: Time)
    requires Inv(digest, w) && s < |w.sessions| && held.expires == w.sessions[s].expires
    requires ReportSession(w, w.row, s, held, pageOrigin, outcome, now).Some?
    ensures Inv(digest, ReportSession(w, w.row, s, held, pageOrigin, outcome, now).value)
  {
    var base := EndSession(w, s, now, Reported);
    ReportedKeepsSessions(w, s, now);
    MovedOnKeeps(digest, w, base, outcome, EventInput(FillPaused, Runner, About(held.packet)));
  }

  lemma RunnerRevisionKeeps(
    digest: Material -> string, w: World, p: nat, discovered: seq<Discovered>, fingerprint: Option<string>)
    requires Inv(digest, w) && p + 1 == |w.packets|
    requires var answers := Merged(Collapsed(w.packets[p].answers, AnswerKey), discovered);
             UnresolvedQuestionKeys(answers) != []
    requires RunnerResult(digest, w, w.row, w.row, p, QuestionsLeft, discovered, fingerprint).Some?
    ensures Inv(digest, RunnerResult(digest, w, w.row, w.row, p, QuestionsLeft, discovered, fingerprint).value)
  {
    var previous := w.packets[p];
    CollapsedIsIdentity(previous.answers, AnswerKey);
    MergeMeetsItsPromise(previous.answers, discovered);
    var revised :=
      NewPacket(digest, previous.snapshot.(formFingerprint := fingerprint), Merged(previous.answers, discovered));
    RevisedKeepsPackets(digest, w, p, revised);
    MovedToRevisionKeeps(digest, w, w.(packets := w.packets[p := previous.(approval := None)] + [revised]));
  }

  lemma RevisedKeepsPackets(digest: Material -> string, w: World, p: nat, revised: Packet)
    requires PacketsOk(digest, w) && SessionsOk(w) && p < |w.packets| && PacketOk(digest, revised)
    ensures var packets := w.packets[p := w.packets[p].(approval := None)] + [revised];
            && (forall q :: 0 <= q < |packets| ==> PacketOk(digest, packets[q]))
            && SessionsOk(w.(packets := packets))
  {
  }

  lemma MovedToRevisionKeeps(digest: Material -> string, w: World, base: World)
    requires Inv(digest, w) && SessionsOk(base) && |base.packets| == |w.packets| + 1
    requires forall q :: 0 <= q < |base.packets| ==> PacketOk(digest, base.packets[q])
    requires base.row == w.row && base.events == w.events
    requires var ev, columns := EventInput(FillPaused, Runner, About(|w.packets|)),
                                NO_COLUMNS.(currentPacket := Some(|w.packets|));
             Transitioned(base, w.row, [NeedsInput], ev, columns).Some?
    ensures Inv(digest, Transitioned(base, w.row, [NeedsInput], EventInput(FillPaused, Runner, About(|w.packets|)),
              NO_COLUMNS.(currentPacket := Some(|w.packets|))).value)
  {
    MoveKeepsHistory(w, base, [NeedsInput], EventInput(FillPaused, Runner, About(|w.packets|)),
      NO_COLUMNS.(currentPacket := Some(|w.packets|)));
  }

  lemma RunnerPauseKeeps(digest: Material -> string, w: World, p: nat, outcome: FillOutcome)
    requires Inv(digest, w)
    requires Transitioned(w, w.row, [FillStatus(outcome)], EventInput(FillPaused, Runner, About(p)), NO_COLUMNS).Some?
    ensures Inv(digest,
              Transitioned(w, w.row, [FillStatus(outcome)], EventInput(FillPaused, Runner, About(p)), NO_COLUMNS).value)
  {
    MovedOnKeeps(digest, w, w, outcome, EventInput(FillPaused, Runner, About(p)));
  }

  lemma RunnerFailureKeeps(digest: Material -> string, w: World, p: nat)
    requires Inv(digest, w) && w.row.status.Filling?
    ensures Inv(digest, RunnerFailure(w, w.row, p).value)
  {
    MoveKeepsHistory(w, w, [Failed], EventInput(FillFailed, Runner, About(p)), NO_COLUMNS);
  }

  lemma ConfirmationIsEvidence(w: World, p: nat, seen: Confirmation)
    requires LogReplays(w) && EventsOk(w) && w.row.status.AwaitingUserSubmit?
    requires ApplyObservation(w, w.row, p, Observation(true, Some(seen), None)).Some?
    ensures EvidenceOk(ApplyObservation(w, w.row, p, Observation(true, Some(seen), None)).value)
  {
    var w' := ApplyObservation(w, w.row, p, Observation(true, Some(seen), None)).value;
    assert LastStatus(w'.events, |w'.events|, |w'.events| - 1) && IsObservation(w'.events[|w'.events| - 1]);
  }

  lemma ApplyObservationKeeps(digest: Material -> string, w: World, p: nat, o: Observation)
    requires Inv(digest, w) && w.row.status.AwaitingUserSubmit?
    requires ApplyObservation(w, w.row, p, o).Some?
    ensures Inv(digest, ApplyObservation(w, w.row, p, o).value)
  {
    if Coherent(o) && o.observed {
      var seen := o.confirmation.value;
      ConfirmationIsEvidence(w, p, seen);
      PlainMoveKeeps(digest, w, [Submitted], EventInput(SubmissionRecorded, Runner, About(p)),
        NO_COLUMNS.(submittedAt := Some(Some(seen.observedAt)),
                    evidence := Some(Some(Evidence(AdapterObserved, Some(seen.observedAt), seen.detail)))));
    } else {
      PlainMoveKeeps(digest, w, [OutcomeUnknown], EventInput(OutcomeRecorded, Runner, About(p)), NO_COLUMNS);
    }
  }

  lemma RequestObservationKeeps(digest: Material -> string, w: World, p: nat)
    requires Inv(digest, w) && RequestObservation(w, w.row, p).Some?
    ensures Inv(digest, RequestObservation(w, w.row, p).value)
  {
    MoveKeepsHistory(w, w, [AwaitingUserSubmit], EventInput(Note, User, About(p)), NO_COLUMNS);
  }

  lemma RecordedEvidence(w: World, outcome: Outcome, kind: EvidenceKind, report: Option<Report>, now: Time)
    requires EvidenceOk(w) && RecordOutcome(w, w.row, outcome, kind, report, now).Some?
    ensures EvidenceOk(RecordOutcome(w, w.row, outcome, kind, report, now).value)
  {
  }

  lemma RecordOutcomeKeeps(
    digest: Material -> string, w: World, outcome: Outcome, kind: EvidenceKind, report: Option<Report>, now: Time)
    requires Inv(digest, w) && RecordOutcome(w, w.row, outcome, kind, report, now).Some?
    ensures Inv(digest, RecordOutcome(w, w.row, outcome, kind, report, now).value)
  {
    var w' := RecordOutcome(w, w.row, outcome, kind, report, now).value;
    RecordedEvidence(w, outcome, kind, report, now);
    PlainMoveKeeps(digest, w, [OutcomeStatus(outcome)],
      EventInput(
        if outcome.WasCancelled? then CancellationRecorded
        else if outcome.WasSubmitted? then SubmissionRecorded else OutcomeRecorded, User, Nothing),
      NO_COLUMNS.(submittedAt := Some(w'.row.submittedAt), evidence := Some(w'.row.evidence)));
  }

  lemma SessionsEndedKeeps(digest: Material -> string, w: World, w': World)
    requires Inv(digest, w)
    requires w'.row == w.row && w'.packets == w.packets && w'.events == w.events && |w'.sessions| == |w.sessions|
    requires forall s :: 0 <= s < |w.sessions| ==>
               w'.sessions[s] == w.sessions[s]
               || (w'.sessions[s].ended.Some? && !w'.sessions[s].ended.value.reason.Reported?
                   && w'.sessions[s].(ended := None) == w.sessions[s].(ended := None))
    ensures Inv(digest, w')
  {
  }
}
